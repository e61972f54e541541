/**
 * Hybrid retrieval of precedents (backend/src/peoples_court/db.py):
 * Reciprocal Rank Fusion of a vector ranking and a BM25 ranking with a bonus
 * for first place, sanitising of the keyword query, and assembly of the
 * top-k precedents from the fetched submission and comment rows.
 * The SQL searches and fetches are parameters of type `Index`.
 */
module Retrieval {
  import opened Wrappers
  import opened Text
  import opened Dicts

  type Id = string

  /** A row of a ranked search: the submission id and its similarity or BM25 score. */
  datatype Hit = Hit(id: Id, score: real)

  /** An entry of the fused ranking: a submission id and its RRF score. */
  datatype Fused = Fused(id: Id, score: real)

  /** The smoothing constant `k` of `rrf_combine`. */
  const RrfK: nat := 60
  /** The bonus `rrf_combine` gives the first place of each list. */
  const TopRankBonus: real := 0.01

  function HitIds(hits: seq<Hit>): (ids: seq<Id>)
    ensures |ids| == |hits| && forall i :: 0 <= i < |hits| ==> ids[i] == hits[i].id
  {
    seq(|hits|, i requires 0 <= i < |hits| => hits[i].id)
  }

  function FusedIds(fs: seq<Fused>): (ids: seq<Id>)
    ensures |ids| == |fs| && forall i :: 0 <= i < |fs| ==> ids[i] == fs[i].id
  {
    seq(|fs|, i requires 0 <= i < |fs| => fs[i].id)
  }

  ghost predicate Distinct<T>(s: seq<T>) {
    forall i, j :: 0 <= i < j < |s| ==> s[i] != s[j]
  }

  // ---------------------------------------------------------------------
  // Scores
  // ---------------------------------------------------------------------

  /** What the entry at 1-based `rank` adds to its id: `1/(k+rank)`, plus the bonus at rank 1. */
  function Contribution(rank: nat, k: nat, bonus: real): real
    requires rank >= 1
  {
    1.0 / ((k + rank) as real) + (if rank == 1 then bonus else 0.0)
  }

  /** The sum of the contributions of every position that `id` holds in `ids`. */
  function RankScore(ids: seq<Id>, id: Id, k: nat, bonus: real): real
    decreases |ids|
  {
    if ids == [] then 0.0
    else RankScore(ids[..|ids| - 1], id, k, bonus)
         + (if ids[|ids| - 1] == id then Contribution(|ids|, k, bonus) else 0.0)
  }

  /** An id's fused score: its rank score in the vector list plus that in the keyword list. */
  function FusedScore(v: seq<Id>, kw: seq<Id>, id: Id, k: nat, bonus: real): real {
    RankScore(v, id, k, bonus) + RankScore(kw, id, k, bonus)
  }

  /** The elements of `s` in the order of their first occurrence. */
  function Dedup<T(==,!new)>(s: seq<T>): (r: seq<T>)
    ensures Distinct(r)
    ensures forall x :: x in r <==> x in s
    decreases |s|
  {
    if s == [] then []
    else
      var d := Dedup(s[..|s| - 1]);
      if s[|s| - 1] in d then d else d + [s[|s| - 1]]
  }

  /** The score dictionary of `rrf_combine` as its items, in insertion order. */
  function ScoreItems(v: seq<Id>, kw: seq<Id>, k: nat, bonus: real): (items: seq<Fused>)
    ensures FusedIds(items) == Dedup(v + kw)
    ensures forall i :: 0 <= i < |items| ==> items[i].score == FusedScore(v, kw, items[i].id, k, bonus)
  {
    var d := Dedup(v + kw);
    seq(|d|, i requires 0 <= i < |d| => Fused(d[i], FusedScore(v, kw, d[i], k, bonus)))
  }

  // ---------------------------------------------------------------------
  // The stable descending sort of `sorted(..., reverse=True)`
  // ---------------------------------------------------------------------

  predicate SortedDesc(s: seq<Fused>) {
    forall i, j :: 0 <= i < j < |s| ==> s[i].score >= s[j].score
  }

  /** The entries of `s` whose score is `v`, in their order in `s`. */
  function WithScore(s: seq<Fused>, v: real): seq<Fused> {
    if s == [] then []
    else (if s[0].score == v then [s[0]] else []) + WithScore(s[1..], v)
  }

  /** Puts `x` in front of the first entry whose score does not exceed its own. */
  function Insert(x: Fused, s: seq<Fused>): (r: seq<Fused>)
    ensures multiset(r) == multiset(s) + multiset{x}
  {
    if s == [] then [x]
    else if s[0].score <= x.score then [x] + s
    else
      assert s == [s[0]] + s[1..];
      [s[0]] + Insert(x, s[1..])
  }

  lemma {:induction false} InsertSorted(x: Fused, s: seq<Fused>)
    requires SortedDesc(s)
    ensures SortedDesc(Insert(x, s))
    ensures |Insert(x, s)| > 0 && (Insert(x, s)[0] == x || (|s| > 0 && Insert(x, s)[0] == s[0]))
  {
    if s == [] {
    } else if s[0].score <= x.score {
      ConsSorted(x, s);
    } else {
      InsertSorted(x, s[1..]);
      var r := Insert(x, s[1..]);
      assert Insert(x, s) == [s[0]] + r;
      ConsSorted(s[0], r);
    }
  }

  /** An entry put in front of a sorted run whose first score does not exceed its own. */
  lemma ConsSorted(h: Fused, t: seq<Fused>)
    requires SortedDesc(t) && (|t| > 0 ==> h.score >= t[0].score)
    ensures SortedDesc([h] + t)
  {
    forall i, j | 0 <= i < j < |[h] + t| ensures ([h] + t)[i].score >= ([h] + t)[j].score {
      assert ([h] + t)[j] == t[j - 1];
      if i > 0 {
        assert ([h] + t)[i] == t[i - 1];
      } else {
        assert t[0].score >= t[j - 1].score;
      }
    }
  }

  /** Inserting `x` puts it first among the entries of its own score. */
  lemma {:induction false} InsertWithScore(x: Fused, s: seq<Fused>, v: real)
    ensures WithScore(Insert(x, s), v) == (if x.score == v then [x] else []) + WithScore(s, v)
    decreases |s|
  {
    if s == [] {
    } else if s[0].score <= x.score {
      WithScoreCons(x, s, v);
    } else {
      var rest := Insert(x, s[1..]);
      InsertWithScore(x, s[1..], v);
      assert Insert(x, s) == [s[0]] + rest;
      WithScoreCons(s[0], rest, v);
      WithScoreCons(s[0], s[1..], v);
      assert s == [s[0]] + s[1..];
    }
  }

  lemma WithScoreCons(h: Fused, t: seq<Fused>, v: real)
    ensures WithScore([h] + t, v) == (if h.score == v then [h] else []) + WithScore(t, v)
  {
    assert ([h] + t)[1..] == t;
  }

  /**
   * Python's `sorted(items, key=score, reverse=True)`: a permutation of the
   * items, non-increasing in score, in which items of equal score keep their
   * relative order (the sort is stable, also when reversed).
   */
  function SortByScore(s: seq<Fused>): (r: seq<Fused>)
    ensures multiset(r) == multiset(s)
    ensures SortedDesc(r)
    ensures forall v :: WithScore(r, v) == WithScore(s, v)
  {
    if s == [] then []
    else
      var rest := SortByScore(s[1..]);
      assert s == [s[0]] + s[1..];
      InsertSorted(s[0], rest);
      forall v ensures WithScore(Insert(s[0], rest), v) == WithScore(s, v) {
        InsertWithScore(s[0], rest, v);
      }
      Insert(s[0], rest)
  }

  /** The result of `rrf_combine`, stated as a function of the two rankings. */
  function Rrf(v: seq<Hit>, kw: seq<Hit>, k: nat, bonus: real): seq<Fused> {
    SortByScore(ScoreItems(HitIds(v), HitIds(kw), k, bonus))
  }

  // ---------------------------------------------------------------------
  // rrf_combine
  // ---------------------------------------------------------------------

  lemma RankScorePush(ids: seq<Id>, i: nat, id: Id, k: nat, bonus: real)
    requires i < |ids|
    ensures RankScore(ids[..i + 1], id, k, bonus)
            == RankScore(ids[..i], id, k, bonus) + (if ids[i] == id then Contribution(i + 1, k, bonus) else 0.0)
  {
    assert ids[..i + 1][..i] == ids[..i];
  }

  lemma {:induction false} RankScoreAbsent(ids: seq<Id>, id: Id, k: nat, bonus: real)
    requires id !in ids
    ensures RankScore(ids, id, k, bonus) == 0.0
    decreases |ids|
  {
    if ids != [] {
      RankScoreAbsent(ids[..|ids| - 1], id, k, bonus);
    }
  }

  /**
   * One of the two identical loops of `rrf_combine`:
   * `for rank, (sub_id, _) in enumerate(results, start=1)` adds
   * `1/(k+rank)`, plus the bonus at rank 1, to `scores[sub_id]`, creating the
   * key (at the end of the insertion order) when it is new. `prior` stands
   * for the ranking folded in before this one.
   */
  method AddRanking(keys: seq<Id>, scores: map<Id, real>, results: seq<Hit>, k: nat, bonus: real, ghost prior: seq<Id>)
    returns (keys': seq<Id>, scores': map<Id, real>)
    requires keys == Dedup(prior)
    requires forall x :: x in scores <==> x in keys
    requires forall x :: x in scores ==> scores[x] == RankScore(prior, x, k, bonus)
    ensures keys' == Dedup(prior + HitIds(results))
    ensures forall x :: x in scores' <==> x in keys'
    ensures forall x :: x in scores' ==> scores'[x] == RankScore(prior, x, k, bonus) + RankScore(HitIds(results), x, k, bonus)
  {
    var ids := HitIds(results);
    keys', scores' := keys, scores;
    assert prior + ids[..0] == prior;
    for i := 0 to |results|
      invariant Folded(keys', scores', prior, ids[..i], k, bonus)
    {
      ghost var before, beforeKeys := scores', keys';
      keys', scores' := AddHit(keys', scores', results[i].id, i + 1, k, bonus);
      AddHitStep(prior, ids, i, beforeKeys, before, keys', scores', k, bonus);
    }
    assert ids[..|results|] == ids;
  }

  /** The dictionary after folding in `prior` and then the ranking prefix `seen`. */
  ghost predicate Folded(keys: seq<Id>, scores: map<Id, real>, prior: seq<Id>, seen: seq<Id>, k: nat, bonus: real) {
    && keys == Dedup(prior + seen)
    && (forall x :: x in scores <==> x in keys)
    && (forall x :: x in scores ==> scores[x] == RankScore(prior, x, k, bonus) + RankScore(seen, x, k, bonus))
  }

  /**
   * The body of the loop: `scores[sub_id] = scores.get(sub_id, 0) + 1/(k+rank)`,
   * plus the bonus at rank 1; a new id goes to the end of the insertion order.
   */
  method AddHit(keys: seq<Id>, scores: map<Id, real>, subId: Id, rank: nat, k: nat, bonus: real)
    returns (keys': seq<Id>, scores': map<Id, real>)
    requires rank >= 1
    requires forall x :: x in scores <==> x in keys
    ensures keys' == if subId in keys then keys else keys + [subId]
    ensures forall x :: x in scores' <==> x in keys'
    ensures forall x :: x in scores' ==> scores'[x] == (if x in scores then scores[x] else 0.0)
                                                        + (if x == subId then Contribution(rank, k, bonus) else 0.0)
  {
    var boost := if rank == 1 then bonus else 0.0;
    var previous := if subId in scores then scores[subId] else 0.0;
    scores' := scores[subId := previous + 1.0 / ((k + rank) as real) + boost];
    keys' := keys;
    if subId !in keys {
      keys' := keys + [subId];
    }
  }

  /** One hit folded in keeps the dictionary equal to the rank scores of the prefix seen so far. */
  lemma AddHitStep(prior: seq<Id>, ids: seq<Id>, i: nat, keys: seq<Id>, scores: map<Id, real>,
                   keys': seq<Id>, scores': map<Id, real>, k: nat, bonus: real)
    requires i < |ids|
    requires Folded(keys, scores, prior, ids[..i], k, bonus)
    requires keys' == if ids[i] in keys then keys else keys + [ids[i]]
    requires forall x :: x in scores' <==> x in keys'
    requires forall x :: x in scores' ==> scores'[x] == (if x in scores then scores[x] else 0.0)
                                                         + (if x == ids[i] then Contribution(i + 1, k, bonus) else 0.0)
    ensures Folded(keys', scores', prior, ids[..i + 1], k, bonus)
  {
    AddHitKeys(prior, ids, i, keys);
    forall x | x in scores'
      ensures scores'[x] == RankScore(prior, x, k, bonus) + RankScore(ids[..i + 1], x, k, bonus)
    {
      if x !in scores {
        assert x !in keys;
      }
      AddHitScore(prior, ids, i, x, x in scores, if x in scores then scores[x] else 0.0, k, bonus);
    }
  }

  /** The insertion order after one more hit. */
  lemma AddHitKeys<T(!new)>(prior: seq<T>, ids: seq<T>, i: nat, keys: seq<T>)
    requires i < |ids| && keys == Dedup(prior + ids[..i])
    ensures (if ids[i] in keys then keys else keys + [ids[i]]) == Dedup(prior + ids[..i + 1])
  {
    assert ids[..i + 1] == ids[..i] + [ids[i]];
    assert prior + ids[..i + 1] == (prior + ids[..i]) + [ids[i]];
    DedupSnoc(prior + ids[..i], ids[i]);
  }

  lemma DedupSnoc<T(!new)>(s: seq<T>, x: T)
    ensures Dedup(s + [x]) == if x in Dedup(s) then Dedup(s) else Dedup(s) + [x]
  {
    assert (s + [x])[..|s|] == s;
  }

  /** The score arithmetic of one step, for a single id. */
  lemma AddHitScore(prior: seq<Id>, ids: seq<Id>, i: nat, x: Id, present: bool, previous: real, k: nat, bonus: real)
    requires i < |ids|
    requires present ==> previous == RankScore(prior, x, k, bonus) + RankScore(ids[..i], x, k, bonus)
    requires !present ==> x !in Dedup(prior + ids[..i]) && previous == 0.0
    ensures previous + (if x == ids[i] then Contribution(i + 1, k, bonus) else 0.0)
            == RankScore(prior, x, k, bonus) + RankScore(ids[..i + 1], x, k, bonus)
  {
    RankScorePush(ids, i, x, k, bonus);
    if !present {
      RankScoreAbsent(prior, x, k, bonus);
      RankScoreAbsent(ids[..i], x, k, bonus);
    }
  }

  /** `scores.items()`: the dictionary's entries in insertion order. */
  function Items(keys: seq<Id>, scores: map<Id, real>): (items: seq<Fused>)
    requires forall x :: x in keys ==> x in scores
    ensures FusedIds(items) == keys
    ensures forall n :: 0 <= n < |items| ==> items[n].score == scores[keys[n]]
  {
    seq(|keys|, n requires 0 <= n < |keys| => Fused(keys[n], scores[keys[n]]))
  }

  lemma ItemsAreScoreItems(keys: seq<Id>, scores: map<Id, real>, v: seq<Id>, kw: seq<Id>, k: nat, bonus: real)
    requires keys == Dedup(v + kw)
    requires forall x :: x in scores <==> x in keys
    requires forall x :: x in scores ==> scores[x] == RankScore(v, x, k, bonus) + RankScore(kw, x, k, bonus)
    ensures Items(keys, scores) == ScoreItems(v, kw, k, bonus)
  {
    var items, spec := Items(keys, scores), ScoreItems(v, kw, k, bonus);
    assert FusedIds(items) == FusedIds(spec);
    forall n | 0 <= n < |items| ensures items[n] == spec[n] {
      assert items[n].id == spec[n].id == keys[n];
    }
  }

  /**
   * `Database.rrf_combine`: folds the vector ranking and then the keyword
   * ranking into an insertion-ordered score dictionary, then sorts its items
   * by score, descending and stably.
   */
  method RrfCombine(vectorResults: seq<Hit>, keywordResults: seq<Hit>, k: nat, bonus: real)
    returns (ranking: seq<Fused>)
    ensures ranking == Rrf(vectorResults, keywordResults, k, bonus)
  {
    ghost var v, kw := HitIds(vectorResults), HitIds(keywordResults);
    // The dictionary: its keys in insertion order, and its values.
    var keys: seq<Id> := [];
    var scores: map<Id, real> := map[];
    assert Dedup<Id>([]) == [];
    keys, scores := AddRanking(keys, scores, vectorResults, k, bonus, []);
    assert [] + v == v;
    assert forall x :: x in scores ==> scores[x] == RankScore(v, x, k, bonus);
    keys, scores := AddRanking(keys, scores, keywordResults, k, bonus, v);
    ItemsAreScoreItems(keys, scores, v, kw, k, bonus);
    ranking := SortByScore(Items(keys, scores));
  }

  // ---------------------------------------------------------------------
  // Properties of the fusion
  // ---------------------------------------------------------------------

  lemma {:induction false} RankScoreDistinct(ids: seq<Id>, i: nat, k: nat, bonus: real)
    requires Distinct(ids) && i < |ids|
    ensures RankScore(ids, ids[i], k, bonus) == Contribution(i + 1, k, bonus)
    decreases |ids|
  {
    var n := |ids| - 1;
    if i == n {
      RankScoreAbsent(ids[..n], ids[i], k, bonus);
    } else {
      RankScoreDistinct(ids[..n], i, k, bonus);
    }
  }

  /** With a non-negative bonus, a better rank always contributes strictly more. */
  lemma ContributionDecreases(r: nat, s: nat, k: nat, bonus: real)
    requires 1 <= r < s && bonus >= 0.0
    ensures Contribution(r, k, bonus) > Contribution(s, k, bonus)
  {
    ReciprocalDecreases((k + r) as real, (k + s) as real);
  }

  lemma ReciprocalDecreases(a: real, b: real)
    requires 0.0 < a < b
    ensures 1.0 / a > 1.0 / b
  {
    var x, y := 1.0 / a, 1.0 / b;
    assert x * a == 1.0 && y * b == 1.0;
    assert y > 0.0;
    assert y * a < y * b;
    assert y * a < x * a;
  }

  lemma MultisetCount<T>(s: seq<T>, i: nat, j: nat)
    requires i < j < |s| && s[i] == s[j]
    ensures multiset(s)[s[i]] >= 2
  {
    var x := s[i];
    assert s == s[..i] + [x] + s[i + 1..j] + [x] + s[j + 1..];
    assert multiset(s) == multiset(s[..i]) + multiset{x} + multiset(s[i + 1..j]) + multiset{x} + multiset(s[j + 1..]);
  }

  lemma {:induction false} DistinctCount<T>(s: seq<T>, x: T)
    requires Distinct(s)
    ensures multiset(s)[x] <= 1
    decreases |s|
  {
    if s != [] {
      var n := |s| - 1;
      assert s == s[..n] + [s[n]];
      DistinctCount(s[..n], x);
      if s[n] == x {
        assert x !in s[..n];
      }
    }
  }

  /** A permutation of entries with distinct ids again has distinct ids. */
  lemma PermutationKeepsIdsDistinct(r: seq<Fused>, s: seq<Fused>)
    requires multiset(r) == multiset(s) && Distinct(FusedIds(s))
    ensures Distinct(FusedIds(r))
  {
    var ids := FusedIds(s);
    assert Distinct(s) by {
      forall i, j | 0 <= i < j < |s| ensures s[i] != s[j] {
        assert ids[i] != ids[j];
      }
    }
    forall i, j | 0 <= i < j < |r| ensures r[i].id != r[j].id {
      if r[i].id == r[j].id {
        assert r[i] in multiset(s) && r[j] in multiset(s);
        var a :| 0 <= a < |s| && s[a] == r[i];
        var b :| 0 <= b < |s| && s[b] == r[j];
        assert ids[a] == ids[b];
        assert a == b;
        MultisetCount(r, i, j);
        DistinctCount(s, r[i]);
        assert false;
      }
    }
  }

  /**
   * Every id of either ranking appears exactly once in the fusion, nothing
   * else appears, and each entry carries its id's fused score; the fusion is
   * non-increasing in score.
   */
  lemma FusionCoversRankings(vr: seq<Hit>, kr: seq<Hit>, k: nat, bonus: real)
    ensures var f := Rrf(vr, kr, k, bonus);
      && Distinct(FusedIds(f))
      && (forall x :: x in FusedIds(f) <==> x in HitIds(vr) || x in HitIds(kr))
      && (forall i :: 0 <= i < |f| ==> f[i].score == FusedScore(HitIds(vr), HitIds(kr), f[i].id, k, bonus))
      && SortedDesc(f)
  {
    var v, kw := HitIds(vr), HitIds(kr);
    var items := ScoreItems(v, kw, k, bonus);
    var f := Rrf(vr, kr, k, bonus);
    PermutationKeepsIdsDistinct(f, items);
    forall x ensures x in FusedIds(f) <==> x in v || x in kw {
      if x in FusedIds(f) {
        var i :| 0 <= i < |f| && f[i].id == x;
        assert f[i] in multiset(items);
        var a :| 0 <= a < |items| && items[a] == f[i];
        assert x in Dedup(v + kw);
      }
      if x in v || x in kw {
        assert x in Dedup(v + kw);
        var a :| 0 <= a < |items| && items[a].id == x;
        assert items[a] in multiset(f);
        var i :| 0 <= i < |f| && f[i] == items[a];
        assert FusedIds(f)[i] == x;
      }
    }
    forall i | 0 <= i < |f| ensures f[i].score == FusedScore(v, kw, f[i].id, k, bonus) {
      assert f[i] in multiset(items);
    }
  }

  /**
   * Entries of equal score come in the order in which their ids were first
   * seen: the vector ranking first, then the new ids of the keyword ranking.
   */
  lemma FusionTiesKeepFirstSeenOrder(vr: seq<Hit>, kr: seq<Hit>, k: nat, bonus: real, score: real)
    ensures WithScore(Rrf(vr, kr, k, bonus), score) == WithScore(ScoreItems(HitIds(vr), HitIds(kr), k, bonus), score)
    ensures FusedIds(ScoreItems(HitIds(vr), HitIds(kr), k, bonus)) == Dedup(HitIds(vr) + HitIds(kr))
  {
  }

  lemma {:induction false} SortKeepsStrictlyDecreasing(s: seq<Fused>)
    requires forall i :: 0 <= i < |s| - 1 ==> s[i].score > s[i + 1].score
    ensures SortByScore(s) == s
    decreases |s|
  {
    if s != [] {
      SortKeepsStrictlyDecreasing(s[1..]);
      assert SortByScore(s[1..]) == s[1..];
      assert s == [s[0]] + s[1..];
    }
  }

  lemma {:induction false} DedupDistinct<T(!new)>(s: seq<T>)
    requires Distinct(s)
    ensures Dedup(s) == s
    decreases |s|
  {
    if s != [] {
      var n := |s| - 1;
      DedupDistinct(s[..n]);
      assert s[n] !in s[..n];
      assert s[..n] + [s[n]] == s;
    }
  }

  /** The fusion of a ranking of distinct ids with an empty ranking keeps that ranking's order. */
  lemma FusionOfOneList(vr: seq<Hit>, kr: seq<Hit>, k: nat, bonus: real)
    requires bonus >= 0.0
    requires (kr == [] && Distinct(HitIds(vr))) || (vr == [] && Distinct(HitIds(kr)))
    ensures FusedIds(Rrf(vr, kr, k, bonus)) == HitIds(vr) + HitIds(kr)
  {
    var items := ScoreItems(HitIds(vr), HitIds(kr), k, bonus);
    OneListScores(HitIds(vr), HitIds(kr), k, bonus);
    ScoredByRank(items, k, bonus);
    SortKeepsStrictlyDecreasing(items);
  }

  /** Items scored by their rank alone are strictly decreasing in score. */
  lemma ScoredByRank(items: seq<Fused>, k: nat, bonus: real)
    requires bonus >= 0.0
    requires forall i :: 0 <= i < |items| ==> items[i].score == Contribution(i + 1, k, bonus)
    ensures forall i :: 0 <= i < |items| - 1 ==> items[i].score > items[i + 1].score
  {
    forall i | 0 <= i < |items| - 1 ensures items[i].score > items[i + 1].score {
      ContributionDecreases(i + 1, i + 2, k, bonus);
    }
  }

  /** With one list empty, the items are the other list in order, each scored by its rank. */
  lemma OneListScores(v: seq<Id>, kw: seq<Id>, k: nat, bonus: real)
    requires (kw == [] && Distinct(v)) || (v == [] && Distinct(kw))
    ensures FusedIds(ScoreItems(v, kw, k, bonus)) == v + kw
    ensures forall i :: 0 <= i < |v + kw| ==> ScoreItems(v, kw, k, bonus)[i].score == Contribution(i + 1, k, bonus)
  {
    var only := v + kw;
    assert only == (if kw == [] then v else kw);
    DedupDistinct(only);
    var items := ScoreItems(v, kw, k, bonus);
    forall i | 0 <= i < |items| ensures items[i].score == Contribution(i + 1, k, bonus) {
      assert items[i].id == only[i];
      if kw == [] {
        RankScoreDistinct(v, i, k, bonus);
      } else {
        RankScoreDistinct(kw, i, k, bonus);
      }
    }
  }

  lemma RankScoreAtMostSecond(ids: seq<Id>, id: Id, k: nat, bonus: real)
    requires Distinct(ids) && |ids| > 0 && ids[0] != id
    ensures RankScore(ids, id, k, bonus) <= 1.0 / ((k + 2) as real)
  {
    if id in ids {
      var i :| 0 <= i < |ids| && ids[i] == id;
      RankScoreDistinct(ids, i, k, bonus);
      if i > 1 {
        ContributionDecreases(2, i + 1, k, 0.0);
      }
    } else {
      RankScoreAbsent(ids, id, k, bonus);
    }
  }

  /**
   * An id ranked first in both lists outscores every other id, so it heads
   * the fusion.
   */
  lemma FirstInBothWins(vr: seq<Hit>, kr: seq<Hit>, k: nat, bonus: real, other: Id)
    requires bonus >= 0.0
    requires Distinct(HitIds(vr)) && Distinct(HitIds(kr))
    requires |vr| > 0 && |kr| > 0 && vr[0].id == kr[0].id && other != vr[0].id
    ensures FusedScore(HitIds(vr), HitIds(kr), other, k, bonus) < FusedScore(HitIds(vr), HitIds(kr), vr[0].id, k, bonus)
    ensures Rrf(vr, kr, k, bonus)[0].id == vr[0].id
  {
    var v, kw, a := HitIds(vr), HitIds(kr), vr[0].id;
    RankScoreDistinct(v, 0, k, bonus);
    RankScoreDistinct(kw, 0, k, bonus);
    ContributionDecreases(1, 2, k, 0.0);
    RankScoreAtMostSecond(v, other, k, bonus);
    RankScoreAtMostSecond(kw, other, k, bonus);
    var f := Rrf(vr, kr, k, bonus);
    FusionCoversRankings(vr, kr, k, bonus);
    assert a in FusedIds(f);
    var i :| 0 <= i < |f| && f[i].id == a;
    forall j | 0 <= j < |f| && f[j].id != a ensures f[j].score < f[i].score {
      RankScoreAtMostSecond(v, f[j].id, k, bonus);
      RankScoreAtMostSecond(kw, f[j].id, k, bonus);
    }
  }

  /** Two empty rankings fuse to nothing. */
  lemma EmptyFusion(k: nat, bonus: real)
    ensures Rrf([], [], k, bonus) == []
  {
    assert HitIds([]) == [];
    assert Dedup<Id>([]) == [];
  }

  // ---------------------------------------------------------------------
  // The keyword query
  // ---------------------------------------------------------------------

  /** The characters the keyword query replaces by spaces, in the order it replaces them. */
  const Forbidden: seq<char> := [':', '(', ')', '[', ']', '"', '?', '*', '-', '/', '\\']

  /** `keyword_query.split("\n")[0].strip()`. */
  function StrippedFirstLine(query: string): string {
    Strip(Split(query, '\n')[0])
  }

  /** The first line of a query holds no line break. */
  lemma FirstLineSingle(query: string)
    ensures '\n' !in StrippedFirstLine(query)
  {
    var first := Split(query, '\n')[0];
    var line := Strip(first);
    assert '\n' !in first;
    var i :| OccursAt(first, line, i);
    assert forall j :: 0 <= j < |line| ==> line[j] == first[i + j];
  }

  /** `line` with every character of `chars` turned into a space. */
  function Blanked(line: string, chars: seq<char>): (r: string)
    ensures |r| == |line|
    ensures forall j :: 0 <= j < |line| ==> r[j] == if line[j] in chars then ' ' else line[j]
  {
    seq(|line|, j requires 0 <= j < |line| => if line[j] in chars then ' ' else line[j])
  }

  /** The sanitised keyword query: the stripped first line with every forbidden character blanked. */
  function Sanitized(query: string): (clean: string)
    ensures |clean| == |StrippedFirstLine(query)|
    ensures '\n' !in clean && forall c :: c in Forbidden ==> c !in clean
  {
    var line := StrippedFirstLine(query);
    FirstLineSingle(query);
    BlankedIsClean(line);
    Blanked(line, Forbidden)
  }

  /** Blanking the forbidden characters of a single line leaves none of them, and no line break. */
  lemma BlankedIsClean(line: string)
    requires '\n' !in line
    ensures '\n' !in Blanked(line, Forbidden) && forall c :: c in Forbidden ==> c !in Blanked(line, Forbidden)
  {
    var clean := Blanked(line, Forbidden);
    assert ' ' !in Forbidden;
    forall c | c in Forbidden || c == '\n' ensures c !in clean {
      forall j | 0 <= j < |clean| ensures clean[j] != c {
        assert clean[j] == ' ' || (clean[j] == line[j] && line[j] !in Forbidden);
      }
    }
  }

  /** The sanitising in `retrieve_precedents`: one `str.replace` per forbidden character. */
  method SanitizeKeywords(keywordQuery: string) returns (cleanKw: string)
    ensures cleanKw == Sanitized(keywordQuery)
  {
    cleanKw := BlankEach(StrippedFirstLine(keywordQuery), Forbidden);
  }

  /** `line.replace(c, " ")` for each `c` of `chars` in turn. */
  method BlankEach(line: string, chars: seq<char>) returns (clean: string)
    ensures clean == Blanked(line, chars)
  {
    clean := line;
    for n := 0 to |chars|
      invariant |clean| == |line|
      invariant forall j :: 0 <= j < |line| ==> clean[j] == if line[j] in chars[..n] then ' ' else line[j]
    {
      ReplaceChar(clean, chars[n], ' ');
      assert chars[..n + 1] == chars[..n] + [chars[n]];
      clean := Replace(clean, [chars[n]], " ");
    }
    assert chars[..|chars|] == chars;
  }

  /** The field-boosted BM25 query: a title match weighs twice a body match. */
  function Bm25Query(q: string): string {
    "title:(" + q + ")^2 OR selftext:(" + q + ")"
  }

  /** The index of the first `c` in `s`, or `|s|` when there is none. */
  function FirstIndex(s: string, c: char): (r: nat)
    ensures r <= |s| && c !in s[..r] && (r < |s| ==> s[r] == c)
  {
    if s == [] then 0
    else if s[0] == c then 0
    else
      var r := 1 + FirstIndex(s[1..], c);
      assert s[..r] == [s[0]] + s[1..][..r - 1];
      r
  }

  /**
   * The title group of the BM25 query closes right after the keywords exactly
   * when the keywords hold no `)`, which sanitised keywords never do.
   */
  lemma TitleGroupEnclosesKeywords(q: string)
    ensures FirstIndex(Bm25Query(q), ')') == 7 + |q| <==> ')' !in q
    ensures FirstIndex(Bm25Query(Sanitized(q)), ')') == 7 + |Sanitized(q)|
  {
    forall s: string ensures FirstIndex(Bm25Query(s), ')') == 7 + |s| <==> ')' !in s {
      var query := Bm25Query(s);
      assert query[..7] == "title:(";
      assert query[7..7 + |s|] == s;
      assert query[7 + |s|] == ')';
      assert query[..7 + |s|] == "title:(" + s;
      if ')' in s {
        var i :| 0 <= i < |s| && s[i] == ')';
        assert query[7 + i] == ')';
      }
    }
    assert ')' in Forbidden;
  }

  // ---------------------------------------------------------------------
  // Precedent assembly
  // ---------------------------------------------------------------------

  /**
   * A row of `SELECT id, title, selftext, link_flair_text, score FROM submissions`.
   * The score is NULL for a post stored without one.
   */
  datatype SubmissionRow = SubmissionRow(id: Id, title: string, selftext: string, flair: Option<string>, score: Option<int>)

  /**
   * A row of `SELECT submission_id, author, body, score FROM comments ... ORDER BY score DESC`.
   * The author is NULL for a comment stored with a null author.
   */
  datatype CommentRow = CommentRow(submissionId: Id, author: Option<string>, body: string, score: int)

  datatype Comment = Comment(author: Option<string>, body: string, score: int)

  /** A precedent as handed to the judge; its `verdict` is the submission's flair column. */
  datatype Precedent = Precedent(id: Id, title: string, text: string, verdict: Option<string>,
                                 score: Option<int>, relevance: real, comments: seq<Comment>)

  /** The database, reduced to the four queries `retrieve_precedents` issues. */
  datatype Index = Index(
    vectorSearch: seq<real> -> seq<Hit>,
    keywordSearch: string -> seq<Hit>,
    fetchSubmissions: seq<Id> -> seq<SubmissionRow>,
    fetchComments: seq<Id> -> seq<CommentRow>)

  /** `{row[0]: row for row in rows}`: the fetched rows by id, a later row with the same id winning. */
  function SubmissionMap(rows: seq<SubmissionRow>): map<Id, SubmissionRow> {
    KeyedBy(rows, (r: SubmissionRow) => r.id)
  }

  /** The comments of the rows that belong to `id`, in row order. */
  function CommentsOf(rows: seq<CommentRow>, id: Id): (cs: seq<Comment>)
    ensures |cs| <= |rows|
    decreases |rows|
  {
    if rows == [] then []
    else
      var n := |rows| - 1;
      CommentsOf(rows[..n], id)
      + (if rows[n].submissionId == id then [Comment(rows[n].author, rows[n].body, rows[n].score)] else [])
  }

  /** The first three comments of `id` in row order: what the grouping loop keeps. */
  function TopComments(rows: seq<CommentRow>, id: Id): (cs: seq<Comment>)
    ensures |cs| <= 3 && |cs| <= |CommentsOf(rows, id)| && cs == CommentsOf(rows, id)[..|cs|]
    ensures |CommentsOf(rows, id)| <= 3 ==> cs == CommentsOf(rows, id)
    ensures |cs| == if |CommentsOf(rows, id)| < 3 then |CommentsOf(rows, id)| else 3
  {
    SliceTo(CommentsOf(rows, id), 3)
  }

  /** `next(score for sid, score in hybrid_rankings if sid == sub_id)`. */
  function FirstScore(rankings: seq<Fused>, id: Id): (score: real)
    requires id in FusedIds(rankings)
    ensures exists i :: 0 <= i < |rankings| && rankings[i].id == id && rankings[i].score == score
              && forall j :: 0 <= j < i ==> rankings[j].id != id
  {
    if rankings[0].id == id then rankings[0].score
    else
      assert FusedIds(rankings[1..]) == FusedIds(rankings)[1..];
      var score := FirstScore(rankings[1..], id);
      var i :| 0 <= i < |rankings[1..]| && rankings[1..][i].id == id && rankings[1..][i].score == score
               && forall j :: 0 <= j < i ==> rankings[1..][j].id != id;
      assert rankings[i + 1].id == id && rankings[i + 1].score == score;
      assert forall j :: 0 <= j < i + 1 ==> rankings[j].id != id by {
        forall j | 0 < j < i + 1 ensures rankings[j].id != id {
          assert rankings[j] == rankings[1..][j - 1];
        }
      }
      score
  }

  /** The precedents of the ids in `top` whose submission row was found, in the order of `top`. */
  function Assemble(top: seq<Id>, subs: map<Id, SubmissionRow>, comments: seq<CommentRow>, rankings: seq<Fused>): (ps: seq<Precedent>)
    requires forall id :: id in top ==> id in FusedIds(rankings)
    ensures |ps| <= |top|
    decreases |top|
  {
    if top == [] then []
    else
      var n := |top| - 1;
      var id := top[n];
      Assemble(top[..n], subs, comments, rankings)
      + (if id in subs then
           var s := subs[id];
           [Precedent(id, s.title, s.selftext, s.flair, s.score, FirstScore(rankings, id), TopComments(comments, id))]
         else [])
  }

  /** `hybrid_rankings[:k_precedents]`, reduced to the ids. */
  function TopIds(rankings: seq<Fused>, kPrecedents: int): (top: seq<Id>)
    ensures |top| <= |rankings| && top == FusedIds(rankings)[..|top|]
    ensures kPrecedents >= 0 ==> |top| <= kPrecedents
    ensures kPrecedents >= 0 ==> |top| == if kPrecedents < |rankings| then kPrecedents else |rankings|
  {
    FusedIds(SliceTo(rankings, kPrecedents))
  }

  /**
   * `Database.retrieve_precedents`: both searches, the fusion, the top-k
   * slice, the comment grouping (at most three per submission, first rows
   * first) and the assembly of the precedents in fused order.
   */
  method RetrievePrecedents(db: Index, scenarioVector: seq<real>, keywordQuery: string, kPrecedents: int)
    returns (precedents: seq<Precedent>, vectorResults: seq<Hit>, keywordResults: seq<Hit>, hybridRankings: seq<Fused>)
    ensures vectorResults == db.vectorSearch(scenarioVector)
    ensures keywordResults == db.keywordSearch(Bm25Query(Sanitized(keywordQuery)))
    ensures hybridRankings == Rrf(vectorResults, keywordResults, RrfK, TopRankBonus)
    ensures var top := TopIds(hybridRankings, kPrecedents);
      precedents == if top == [] then []
                    else Assemble(top, SubmissionMap(db.fetchSubmissions(top)), db.fetchComments(top), hybridRankings)
  {
    vectorResults := db.vectorSearch(scenarioVector);
    var cleanKw := SanitizeKeywords(keywordQuery);
    keywordResults := db.keywordSearch(Bm25Query(cleanKw));
    hybridRankings := RrfCombine(vectorResults, keywordResults, RrfK, TopRankBonus);
    var topIds := TopIds(hybridRankings, kPrecedents);
    if topIds == [] {
      return [], vectorResults, keywordResults, hybridRankings;
    }
    var subs := SubmissionMap(db.fetchSubmissions(topIds));
    var rows := db.fetchComments(topIds);
    var comments := GroupComments(rows);
    precedents := AssemblePrecedents(topIds, subs, rows, comments, hybridRankings);
  }

  lemma CommentsOfPush(rows: seq<CommentRow>, i: nat, id: Id)
    requires i < |rows|
    ensures CommentsOf(rows[..i + 1], id) == CommentsOf(rows[..i], id)
      + (if rows[i].submissionId == id then [Comment(rows[i].author, rows[i].body, rows[i].score)] else [])
  {
    assert rows[..i + 1][..i] == rows[..i];
  }

  /**
   * The grouping loop of `retrieve_precedents`: rows come in descending score
   * order, and each submission keeps the first three of its rows.
   */
  method GroupComments(rows: seq<CommentRow>) returns (comments: map<Id, seq<Comment>>)
    ensures forall id :: id in comments ==> comments[id] == TopComments(rows, id)
    ensures forall id :: id !in comments ==> CommentsOf(rows, id) == []
    ensures forall id :: id in comments ==> CommentsOf(rows, id) != []
  {
    comments := map[];
    for i := 0 to |rows|
      invariant Grouped(comments, rows[..i])
    {
      var row := rows[i];
      var kept := if row.submissionId in comments then comments[row.submissionId] else [];
      if |kept| < 3 {
        kept := kept + [Comment(row.author, row.body, row.score)];
      }
      GroupStep(rows, i, comments, kept);
      comments := comments[row.submissionId := kept];
    }
    assert rows[..|rows|] == rows;
  }

  /** The grouping after some rows: every id seen keeps its top comments, and exactly the ids seen have comments. */
  ghost predicate Grouped(comments: map<Id, seq<Comment>>, rows: seq<CommentRow>) {
    && (forall id :: id in comments ==> comments[id] == TopComments(rows, id))
    && (forall id :: id !in comments ==> CommentsOf(rows, id) == [])
    && (forall id :: id in comments ==> CommentsOf(rows, id) != [])
  }

  /** Appending to a list capped at three: the cap keeps the first three. */
  lemma CappedPush<T>(cs: seq<T>, c: T)
    ensures SliceTo(cs + [c], 3) == if |cs| < 3 then cs + [c] else SliceTo(cs, 3)
  {
    if |cs| >= 3 {
      assert (cs + [c])[..3] == cs[..3];
    }
  }

  /** One more row, appended to its submission's list while that holds fewer than three. */
  lemma GroupStep(rows: seq<CommentRow>, i: nat, comments: map<Id, seq<Comment>>, kept: seq<Comment>)
    requires i < |rows| && Grouped(comments, rows[..i])
    requires var row, sid := rows[i], rows[i].submissionId;
      var current := if sid in comments then comments[sid] else [];
      kept == if |current| < 3 then current + [Comment(row.author, row.body, row.score)] else current
    ensures Grouped(comments[rows[i].submissionId := kept], rows[..i + 1])
  {
    var sid := rows[i].submissionId;
    GroupOwn(rows, i, sid in comments, if sid in comments then comments[sid] else [], kept);
    var next := comments[sid := kept];
    forall id | id in next
      ensures next[id] == TopComments(rows[..i + 1], id) && CommentsOf(rows[..i + 1], id) != []
    {
      CommentsOfPush(rows, i, id);
    }
    forall id | id !in next ensures CommentsOf(rows[..i + 1], id) == [] {
      CommentsOfPush(rows, i, id);
    }
  }

  /** The list of the row's own submission after the step. */
  lemma GroupOwn(rows: seq<CommentRow>, i: nat, present: bool, current: seq<Comment>, kept: seq<Comment>)
    requires i < |rows|
    requires present ==> current == TopComments(rows[..i], rows[i].submissionId)
    requires !present ==> current == [] && CommentsOf(rows[..i], rows[i].submissionId) == []
    requires kept == if |current| < 3 then current + [Comment(rows[i].author, rows[i].body, rows[i].score)] else current
    ensures kept == TopComments(rows[..i + 1], rows[i].submissionId)
  {
    CommentsOfPush(rows, i, rows[i].submissionId);
    CappedPush(CommentsOf(rows[..i], rows[i].submissionId), Comment(rows[i].author, rows[i].body, rows[i].score));
  }

  /** The assembly loop of `retrieve_precedents`: one precedent per top id whose submission row was found. */
  method AssemblePrecedents(topIds: seq<Id>, subs: map<Id, SubmissionRow>, rows: seq<CommentRow>,
                            comments: map<Id, seq<Comment>>, hybridRankings: seq<Fused>)
    returns (precedents: seq<Precedent>)
    requires forall id :: id in topIds ==> id in FusedIds(hybridRankings)
    requires forall id :: id in comments ==> comments[id] == TopComments(rows, id)
    requires forall id :: id !in comments ==> CommentsOf(rows, id) == []
    ensures precedents == Assemble(topIds, subs, rows, hybridRankings)
  {
    precedents := [];
    var t := 0;
    while t < |topIds|
      invariant 0 <= t <= |topIds|
      invariant precedents == Assemble(topIds[..t], subs, rows, hybridRankings)
    {
      assert topIds[..t + 1][..t] == topIds[..t];
      var subId := topIds[t];
      if subId in subs {
        var s := subs[subId];
        var cs := if subId in comments then comments[subId] else [];
        precedents := precedents + [Precedent(subId, s.title, s.selftext, s.flair, s.score, FirstScore(hybridRankings, subId), cs)];
      }
      t := t + 1;
    }
    assert topIds[..|topIds|] == topIds;
  }

  // ---------------------------------------------------------------------
  // Properties of the assembled precedents
  // ---------------------------------------------------------------------

  /** The ids of `top` that `subs` has a row for, in order. */
  function Found(top: seq<Id>, subs: map<Id, SubmissionRow>): seq<Id>
    decreases |top|
  {
    if top == [] then []
    else Found(top[..|top| - 1], subs) + (if top[|top| - 1] in subs then [top[|top| - 1]] else [])
  }

  /**
   * One precedent per top id that has a submission row, in the order of the
   * top ids; each carries the first three comment rows of its submission
   * and the data of its submission row.
   */
  lemma {:induction false} AssembleContents(top: seq<Id>, subs: map<Id, SubmissionRow>, comments: seq<CommentRow>, rankings: seq<Fused>)
    requires forall id :: id in top ==> id in FusedIds(rankings)
    ensures var ps := Assemble(top, subs, comments, rankings);
      && |ps| == |Found(top, subs)|
      && (forall i :: 0 <= i < |ps| ==>
            && ps[i].id == Found(top, subs)[i] && ps[i].id in subs && ps[i].id in top
            && ps[i].title == subs[ps[i].id].title && ps[i].text == subs[ps[i].id].selftext
            && ps[i].verdict == subs[ps[i].id].flair && ps[i].score == subs[ps[i].id].score
            && ps[i].comments == TopComments(comments, ps[i].id)
            && |ps[i].comments| <= 3
            && ps[i].relevance == FirstScore(rankings, ps[i].id))
    decreases |top|
  {
    if top != [] {
      var n := |top| - 1;
      assert forall id :: id in top[..n] ==> id in top;
      AssembleContents(top[..n], subs, comments, rankings);
    }
  }

  /** `pos` lists strictly increasing positions of `big` that hold the elements of `small`. */
  predicate IsEmbedding(pos: seq<nat>, small: seq<Id>, big: seq<Id>) {
    && |pos| == |small|
    && (forall i :: 0 <= i < |pos| ==> pos[i] < |big| && big[pos[i]] == small[i])
    && (forall i, j :: 0 <= i < j < |pos| ==> pos[i] < pos[j])
  }

  lemma {:induction false} FoundIsSubsequence(top: seq<Id>, subs: map<Id, SubmissionRow>)
    ensures |Found(top, subs)| <= |top|
    ensures exists pos: seq<nat> :: IsEmbedding(pos, Found(top, subs), top)
    decreases |top|
  {
    if top == [] {
      assert IsEmbedding([], Found(top, subs), top);
    } else {
      var n := |top| - 1;
      FoundIsSubsequence(top[..n], subs);
      var pos: seq<nat> :| IsEmbedding(pos, Found(top[..n], subs), top[..n]);
      var f := Found(top[..n], subs);
      EmbeddingGrows(pos, f, top);
      if top[n] in subs {
        assert Found(top, subs) == f + [top[n]];
        EmbeddingTakes(pos, f, top);
      } else {
        assert Found(top, subs) == f;
      }
    }
  }

  /** An embedding into all but the last element is one into the whole sequence. */
  lemma EmbeddingGrows(pos: seq<nat>, small: seq<Id>, big: seq<Id>)
    requires |big| > 0 && IsEmbedding(pos, small, big[..|big| - 1])
    ensures IsEmbedding(pos, small, big)
  {
    forall i | 0 <= i < |pos| ensures big[pos[i]] == small[i] {
      assert big[..|big| - 1][pos[i]] == big[pos[i]];
    }
  }

  /** Taking the last element as well extends the embedding by its position. */
  lemma EmbeddingTakes(pos: seq<nat>, small: seq<Id>, big: seq<Id>)
    requires |big| > 0 && IsEmbedding(pos, small, big[..|big| - 1])
    ensures IsEmbedding(pos + [|big| - 1], small + [big[|big| - 1]], big)
  {
    EmbeddingGrows(pos, small, big);
  }

  /**
   * Precedents assembled from a prefix of a sorted, duplicate-free ranking
   * carry, in ranking order, the scores of their own ranking entries.
   */
  lemma AssembledInRankingOrder(rankings: seq<Fused>, top: seq<Id>, subs: map<Id, SubmissionRow>, comments: seq<CommentRow>, ps: seq<Precedent>)
    requires SortedDesc(rankings) && Distinct(FusedIds(rankings))
    requires |top| <= |rankings| && top == FusedIds(rankings)[..|top|]
    requires forall id :: id in top ==> id in FusedIds(rankings)
    requires ps == Assemble(top, subs, comments, rankings)
    ensures forall i :: 0 <= i < |ps| ==> exists a :: 0 <= a < |rankings| && rankings[a].id == ps[i].id && ps[i].relevance == rankings[a].score
    ensures forall i, j :: 0 <= i < j < |ps| ==> ps[i].relevance >= ps[j].relevance
  {
    var found := Found(top, subs);
    AssembleRelevance(top, subs, comments, rankings, ps);
    FoundIsSubsequence(top, subs);
    var pos: seq<nat> :| IsEmbedding(pos, found, top);
    // The relevance of the precedent at i is the score of the ranking entry at pos[i].
    forall i | 0 <= i < |ps| ensures rankings[pos[i]].id == ps[i].id && ps[i].relevance == rankings[pos[i]].score {
      var p := pos[i];
      assert FusedIds(rankings)[p] == top[p] == found[i] == ps[i].id;
      RelevanceAt(rankings, p, ps[i]);
    }
    forall i, j | 0 <= i < j < |ps| ensures ps[i].relevance >= ps[j].relevance {
      assert pos[i] < pos[j];
    }
  }

  /** A precedent whose id stands at `p` of a duplicate-free ranking has the score at `p` as its relevance. */
  lemma RelevanceAt(rankings: seq<Fused>, p: nat, precedent: Precedent)
    requires Distinct(FusedIds(rankings)) && p < |rankings| && FusedIds(rankings)[p] == precedent.id
    requires precedent.id in FusedIds(rankings) && precedent.relevance == FirstScore(rankings, precedent.id)
    ensures rankings[p].id == precedent.id && precedent.relevance == rankings[p].score
  {
    FirstScoreAt(rankings, p);
  }

  /** In a duplicate-free ranking, the first score of the id at position `p` is the score at `p`. */
  lemma FirstScoreAt(rankings: seq<Fused>, p: nat)
    requires p < |rankings| && Distinct(FusedIds(rankings))
    ensures rankings[p].id in FusedIds(rankings)
    ensures FirstScore(rankings, rankings[p].id) == rankings[p].score
  {
    var ids := FusedIds(rankings);
    assert ids[p] == rankings[p].id;
    var score := FirstScore(rankings, rankings[p].id);
    var a :| 0 <= a < |rankings| && rankings[a].id == rankings[p].id && rankings[a].score == score;
    assert ids[a] == ids[p];
    assert a == p;
  }

  /** The ids and relevance scores of assembled precedents, and nothing else about them. */
  lemma AssembleRelevance(top: seq<Id>, subs: map<Id, SubmissionRow>, comments: seq<CommentRow>, rankings: seq<Fused>, ps: seq<Precedent>)
    requires forall id :: id in top ==> id in FusedIds(rankings)
    requires ps == Assemble(top, subs, comments, rankings)
    ensures |ps| == |Found(top, subs)|
    ensures forall i :: 0 <= i < |ps| ==> ps[i].id == Found(top, subs)[i] && ps[i].id in FusedIds(rankings)
    ensures forall i :: 0 <= i < |ps| ==> ps[i].relevance == FirstScore(rankings, ps[i].id)
  {
    AssembleContents(top, subs, comments, rankings);
  }

  /**
   * The precedents of a retrieval come in fused order: their relevance
   * scores are non-increasing and equal to their ids' fused scores, and
   * there are at most `k_precedents` of them when that is not negative (a
   * negative `k_precedents` drops that many from the end of the ranking).
   */
  lemma PrecedentsInFusedOrder(vr: seq<Hit>, kr: seq<Hit>, kPrecedents: int, subs: map<Id, SubmissionRow>, comments: seq<CommentRow>)
    ensures kPrecedents >= 0 ==> |Assemble(TopIds(Rrf(vr, kr, RrfK, TopRankBonus), kPrecedents), subs, comments, Rrf(vr, kr, RrfK, TopRankBonus))| <= kPrecedents
    ensures var rankings := Rrf(vr, kr, RrfK, TopRankBonus);
      var ps := Assemble(TopIds(rankings, kPrecedents), subs, comments, rankings);
      && (forall i :: 0 <= i < |ps| ==> ps[i].relevance == FusedScore(HitIds(vr), HitIds(kr), ps[i].id, RrfK, TopRankBonus))
      && (forall i, j :: 0 <= i < j < |ps| ==> ps[i].relevance >= ps[j].relevance)
  {
    var rankings := Rrf(vr, kr, RrfK, TopRankBonus);
    var top := TopIds(rankings, kPrecedents);
    FusionCoversRankings(vr, kr, RrfK, TopRankBonus);
    assert forall id :: id in top ==> id in FusedIds(rankings);
    var ps := Assemble(top, subs, comments, rankings);
    AssembledInRankingOrder(rankings, top, subs, comments, ps);
    forall i | 0 <= i < |ps| ensures ps[i].relevance == FusedScore(HitIds(vr), HitIds(kr), ps[i].id, RrfK, TopRankBonus) {
      var a :| 0 <= a < |rankings| && rankings[a].id == ps[i].id && ps[i].relevance == rankings[a].score;
    }
  }
}
