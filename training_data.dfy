/**
 * 05_generate_training_data.py: the labelled submissions are grouped by
 * verdict, each class is cut down to at most `target_max` examples by a
 * random sample, and the result is shuffled. The random choices are
 * nondeterministic: every property holds whatever sample and order are
 * drawn.
 */
module TrainingData {
  import opened Wrappers
  import opened Text
  import opened Batching

  /** The classes, in the order the export visits them. */
  const ClassOrder: seq<string> := ["YTA", "NTA", "ESH", "NAH"]

  /** A row of `SELECT title, selftext, verdict FROM submissions WHERE verdict IN (...) AND ...`. */
  datatype Row = Row(title: Option<string>, selftext: string, verdict: string)

  /** One line of the JSONL output. */
  datatype Example = Example(text: string, verdict: string)

  /** The training text of a row: the title, a blank line, the body. */
  function TextOf(r: Row): string {
    Shown(r.title) + "\n\n" + r.selftext
  }

  /** The example a row becomes. */
  function ExampleOf(r: Row): Example {
    Example(TextOf(r), r.verdict)
  }

  /** `data_by_class[verdict]` after the grouping loop: the verdict's rows as examples, in row order. */
  function Bucket(rows: seq<Row>, verdict: string): (b: seq<Example>)
    ensures forall e :: e in b ==> e.verdict == verdict && exists r :: r in rows && e == ExampleOf(r)
    decreases |rows|
  {
    if rows == [] then []
    else
      var n := |rows| - 1;
      var front := Bucket(rows[..n], verdict);
      assert forall e :: e in front ==> exists r :: r in rows && e == ExampleOf(r) by {
        forall e | e in front ensures exists r :: r in rows && e == ExampleOf(r) {
          var r :| r in rows[..n] && e == ExampleOf(r);
          assert r in rows;
        }
      }
      front + (if rows[n].verdict == verdict then [ExampleOf(rows[n])] else [])
  }

  /**
   * `b` is made of the rows at the strictly increasing positions `ks`, each
   * with the verdict, and every row with the verdict is at one of them.
   */
  ghost predicate PicksVerdict(ks: seq<int>, rows: seq<Row>, verdict: string, b: seq<Example>) {
    && |ks| == |b|
    && (forall j :: 0 <= j < |ks| ==> 0 <= ks[j] < |rows| && rows[ks[j]].verdict == verdict && b[j] == ExampleOf(rows[ks[j]]))
    && (forall j, j' :: 0 <= j < j' < |ks| ==> ks[j] < ks[j'])
    && (forall i :: 0 <= i < |rows| && rows[i].verdict == verdict ==> i in ks)
  }

  /** A verdict's bucket is exactly its rows, as examples, in row order, each once. */
  lemma {:induction false} BucketIsVerdictRows(rows: seq<Row>, verdict: string)
    ensures exists ks :: PicksVerdict(ks, rows, verdict, Bucket(rows, verdict))
    decreases |rows|
  {
    if rows == [] {
      assert PicksVerdict([], rows, verdict, Bucket(rows, verdict));
    } else {
      var n := |rows| - 1;
      var front := rows[..n];
      BucketIsVerdictRows(front, verdict);
      var ks :| PicksVerdict(ks, front, verdict, Bucket(front, verdict));
      if rows[n].verdict == verdict {
        PicksAdd(ks, rows, verdict, Bucket(front, verdict));
        assert PicksVerdict(ks + [n], rows, verdict, Bucket(rows, verdict));
      } else {
        PicksSkip(ks, rows, verdict, Bucket(front, verdict));
        assert PicksVerdict(ks, rows, verdict, Bucket(rows, verdict));
      }
    }
  }

  /** A last row with the verdict adds its position and its example. */
  lemma PicksAdd(ks: seq<int>, rows: seq<Row>, verdict: string, b: seq<Example>)
    requires |rows| > 0 && rows[|rows| - 1].verdict == verdict
    requires PicksVerdict(ks, rows[..|rows| - 1], verdict, b)
    ensures PicksVerdict(ks + [|rows| - 1], rows, verdict, b + [ExampleOf(rows[|rows| - 1])])
  {
    var n := |rows| - 1;
    var front := rows[..n];
    var ks', b' := ks + [n], b + [ExampleOf(rows[n])];
    forall j | 0 <= j < |ks| ensures ks'[j] == ks[j] < n && b'[j] == b[j] && rows[ks[j]] == front[ks[j]] {
    }
    forall i | 0 <= i < |rows| && rows[i].verdict == verdict ensures i in ks' {
      if i < n {
        assert front[i] == rows[i];
      } else {
        assert ks'[|ks|] == n;
      }
    }
  }

  /** A last row with another verdict leaves the positions and the examples as they were. */
  lemma PicksSkip(ks: seq<int>, rows: seq<Row>, verdict: string, b: seq<Example>)
    requires |rows| > 0 && rows[|rows| - 1].verdict != verdict
    requires PicksVerdict(ks, rows[..|rows| - 1], verdict, b)
    ensures PicksVerdict(ks, rows, verdict, b)
  {
    var front := rows[..|rows| - 1];
    forall j | 0 <= j < |ks| ensures rows[ks[j]] == front[ks[j]] {
    }
    forall i | 0 <= i < |rows| && rows[i].verdict == verdict ensures i in ks {
      assert front[i] == rows[i];
    }
  }

  /** The examples of `s` with the given verdict, in order. */
  function WithLabel(s: seq<Example>, verdict: string): (r: seq<Example>)
    ensures forall e :: e in r ==> e.verdict == verdict
    decreases |s|
  {
    if s == [] then []
    else WithLabel(s[..|s| - 1], verdict) + (if s[|s| - 1].verdict == verdict then [s[|s| - 1]] else [])
  }

  /** How many times each example occurs among those with the verdict. */
  lemma {:induction false} WithLabelCount(s: seq<Example>, verdict: string, e: Example)
    ensures multiset(WithLabel(s, verdict))[e] == if e.verdict == verdict then multiset(s)[e] else 0
    decreases |s|
  {
    if s != [] {
      var n := |s| - 1;
      WithLabelCount(s[..n], verdict, e);
      assert s == s[..n] + [s[n]];
    }
  }

  /** Reordering the examples reorders the examples of each verdict. */
  lemma WithLabelPermutation(a: seq<Example>, b: seq<Example>, verdict: string)
    requires multiset(a) == multiset(b)
    ensures multiset(WithLabel(a, verdict)) == multiset(WithLabel(b, verdict))
  {
    forall e
      ensures multiset(WithLabel(a, verdict))[e] == multiset(WithLabel(b, verdict))[e]
    {
      WithLabelCount(a, verdict, e);
      WithLabelCount(b, verdict, e);
    }
  }

  lemma {:induction false} WithLabelAppend(a: seq<Example>, b: seq<Example>, verdict: string)
    ensures WithLabel(a + b, verdict) == WithLabel(a, verdict) + WithLabel(b, verdict)
    decreases |b|
  {
    if b == [] {
      assert a + b == a;
    } else {
      var n := |b| - 1;
      WithLabelAppend(a, b[..n], verdict);
      var last: seq<Example> := if b[n].verdict == verdict then [b[n]] else [];
      assert (a + b)[..|a + b| - 1] == a + b[..n] && (a + b)[|a + b| - 1] == b[n];
      assert WithLabel(a + b, verdict) == WithLabel(a + b[..n], verdict) + last;
      assert WithLabel(b, verdict) == WithLabel(b[..n], verdict) + last;
    }
  }

  lemma {:induction false} WithLabelAll(s: seq<Example>, verdict: string)
    ensures (forall e :: e in s ==> e.verdict == verdict) ==> WithLabel(s, verdict) == s
    ensures (forall e :: e in s ==> e.verdict != verdict) ==> WithLabel(s, verdict) == []
    decreases |s|
  {
    if s != [] {
      var n := |s| - 1;
      WithLabelAll(s[..n], verdict);
      assert s == s[..n] + [s[n]];
      assert forall e :: e in s[..n] ==> e in s;
    }
  }

  /** The pieces of a concatenation each with its own verdict, taken apart again by verdict. */
  lemma {:induction false} WithLabelFlatten(pieces: seq<seq<Example>>, verdicts: seq<string>, j: nat)
    requires |pieces| == |verdicts| && j < |verdicts|
    requires forall i, k :: 0 <= i < k < |verdicts| ==> verdicts[i] != verdicts[k]
    requires forall i :: 0 <= i < |pieces| ==> forall e :: e in pieces[i] ==> e.verdict == verdicts[i]
    ensures WithLabel(Flatten(pieces), verdicts[j]) == pieces[j]
    decreases |pieces|
  {
    var n := |pieces| - 1;
    var v := verdicts[j];
    assert Flatten(pieces) == Flatten(pieces[..n]) + pieces[n];
    WithLabelAppend(Flatten(pieces[..n]), pieces[n], v);
    WithLabelAll(pieces[n], v);
    if j < n {
      assert v != verdicts[n];
      WithLabelFlatten(pieces[..n], verdicts[..n], j);
    } else {
      assert v !in verdicts[..n] by {
        forall i | 0 <= i < n ensures verdicts[..n][i] != v {
          assert verdicts[..n][i] == verdicts[i];
        }
      }
      WithLabelNoneOf(pieces[..n], verdicts[..n], v);
    }
  }

  /** A verdict none of the pieces carries is absent from their concatenation. */
  lemma {:induction false} WithLabelNoneOf(pieces: seq<seq<Example>>, verdicts: seq<string>, verdict: string)
    requires |pieces| == |verdicts| && verdict !in verdicts
    requires forall i :: 0 <= i < |pieces| ==> forall e :: e in pieces[i] ==> e.verdict == verdicts[i]
    ensures WithLabel(Flatten(pieces), verdict) == []
    decreases |pieces|
  {
    if pieces != [] {
      var n := |pieces| - 1;
      WithLabelNoneOf(pieces[..n], verdicts[..n], verdict);
      WithLabelAppend(Flatten(pieces[..n]), pieces[n], verdict);
      WithLabelAll(pieces[n], verdict);
    }
  }

  /** What class `verdict` contributes: its whole bucket, or a sample of `targetMax` of it when larger. */
  ghost predicate Contribution(piece: seq<Example>, bucket: seq<Example>, targetMax: int) {
    && multiset(piece) <= multiset(bucket)
    && |piece| == (if |bucket| > targetMax then targetMax else |bucket|)
    && (|bucket| <= targetMax ==> piece == bucket)
  }

  /** A sub-multiset of examples that all carry one verdict carries only that verdict. */
  lemma SubLabels(piece: seq<Example>, bucket: seq<Example>, verdict: string)
    requires multiset(piece) <= multiset(bucket)
    requires forall e :: e in bucket ==> e.verdict == verdict
    ensures forall e :: e in piece ==> e.verdict == verdict && e in bucket
  {
    forall e | e in piece
      ensures e.verdict == verdict && e in bucket
    {
      assert multiset(piece)[e] > 0;
    }
  }

  const SampleError: string := "Sample larger than population or is negative"

  /** `sum(min(len(bucket), target_max))` over the classes. */
  function Expected(rows: seq<Row>, targetMax: int, verdicts: seq<string>): int
    decreases |verdicts|
  {
    if verdicts == [] then 0
    else
      var b := Bucket(rows, verdicts[|verdicts| - 1]);
      Expected(rows, targetMax, verdicts[..|verdicts| - 1]) + (if |b| > targetMax then targetMax else |b|)
  }

  lemma {:induction false} FlattenLength(pieces: seq<seq<Example>>, rows: seq<Row>, targetMax: int, verdicts: seq<string>)
    requires |pieces| == |verdicts|
    requires forall i :: 0 <= i < |pieces| ==> Contribution(pieces[i], Bucket(rows, verdicts[i]), targetMax)
    ensures |Flatten(pieces)| == Expected(rows, targetMax, verdicts)
    decreases |pieces|
  {
    if pieces != [] {
      FlattenLength(pieces[..|pieces| - 1], rows, targetMax, verdicts[..|verdicts| - 1]);
    }
  }

  /** The grouping loop: `data_by_class` with every row appended to its verdict's list. */
  method GroupByVerdict(rows: seq<Row>) returns (byClass: map<string, seq<Example>>)
    requires forall i :: 0 <= i < |rows| ==> rows[i].verdict in ClassOrder
    ensures forall verdict :: verdict in byClass <==> verdict in ClassOrder
    ensures forall verdict :: verdict in ClassOrder ==> byClass[verdict] == Bucket(rows, verdict)
  {
    byClass := map["YTA" := [], "NTA" := [], "ESH" := [], "NAH" := []];
    for i := 0 to |rows|
      invariant forall verdict :: verdict in byClass <==> verdict in ClassOrder
      invariant forall verdict :: verdict in ClassOrder ==> byClass[verdict] == Bucket(rows[..i], verdict)
    {
      assert rows[..i + 1][..i] == rows[..i];
      var r := rows[i];
      byClass := byClass[r.verdict := byClass[r.verdict] + [Example(TextOf(r), r.verdict)]];
    }
    assert rows[..|rows|] == rows;
  }

  /** The four classes are different. */
  lemma ClassesDistinct()
    ensures forall i, k :: 0 <= i < k < |ClassOrder| ==> ClassOrder[i] != ClassOrder[k]
  {
    forall i, k | 0 <= i < k < |ClassOrder|
      ensures ClassOrder[i] != ClassOrder[k]
    {
      assert (ClassOrder[i][0], ClassOrder[i][1]) != (ClassOrder[k][0], ClassOrder[k][1]);
    }
  }

  /** `random.sample(items, n)`: `n` of the items, drawn without replacement, in any order. */
  method Sample(items: seq<Example>, n: nat) returns (sample: seq<Example>)
    requires n <= |items|
    ensures |sample| == n && multiset(sample) <= multiset(items)
  {
    assert items == items[..n] + items[n..];
    sample :| |sample| == n && multiset(sample) <= multiset(items);
  }

  /** One class's contribution: `random.sample(items, target_max)` when it has more than `target_max` examples. */
  method Cap(items: seq<Example>, targetMax: int) returns (piece: seq<Example>)
    requires targetMax >= 0
    ensures Contribution(piece, items, targetMax)
  {
    piece := items;
    if |items| > targetMax {
      piece := Sample(items, targetMax);
    }
  }

  /** `random.shuffle`: the same examples in any order. */
  method Shuffle(data: seq<Example>) returns (shuffled: seq<Example>)
    ensures multiset(shuffled) == multiset(data)
  {
    shuffled :| multiset(shuffled) == multiset(data);
  }

  /**
   * `gen_dataset` between the query and the file: group the rows by verdict,
   * cap every class at `targetMax` by sampling, then shuffle. A negative cap
   * makes the first sample raise.
   */
  method GenDataset(rows: seq<Row>, targetMax: int) returns (out: Result<seq<Example>, string>)
    requires forall i :: 0 <= i < |rows| ==> rows[i].verdict in ClassOrder
    ensures targetMax < 0 ==> out == Failure(SampleError)
    ensures targetMax >= 0 ==> out.Success?
    ensures out.Success? ==> |out.value| == Expected(rows, targetMax, ClassOrder)
    ensures out.Success? ==> FromRows(rows, out.value)
    ensures out.Success? ==> PerClass(rows, targetMax, out.value)
  {
    var byClass := GroupByVerdict(rows);
    var capped, pieces := CapClasses(byClass, ClassOrder, targetMax);
    if capped.Failure? {
      return capped;
    }
    var finalData := capped.value;
    assert Contributed(rows, targetMax, pieces);
    var shuffled := Shuffle(finalData);
    FlattenLength(pieces, rows, targetMax, ClassOrder);
    assert |shuffled| == |multiset(shuffled)| == |finalData|;
    ExportedFromRows(rows, targetMax, pieces, shuffled);
    ExportedPerClass(rows, targetMax, pieces, shuffled);
    return Success(shuffled);
  }

  /**
   * The capping loop: each class of `order` in turn, sampled down to
   * `targetMax` when larger, extends the export; `pieces` records what each
   * class added.
   */
  method CapClasses(byClass: map<string, seq<Example>>, order: seq<string>, targetMax: int)
    returns (capped: Result<seq<Example>, string>, ghost pieces: seq<seq<Example>>)
    requires forall verdict :: verdict in order ==> verdict in byClass
    ensures targetMax < 0 && |order| > 0 ==> capped == Failure(SampleError)
    ensures targetMax >= 0 ==> capped.Success? && |pieces| == |order| && capped.value == Flatten(pieces)
    ensures targetMax >= 0 ==> forall j :: 0 <= j < |order| ==> Contribution(pieces[j], byClass[order[j]], targetMax)
  {
    var finalData: seq<Example> := [];
    pieces := [];
    for k := 0 to |order|
      invariant |pieces| == k && finalData == Flatten(pieces)
      invariant targetMax >= 0 || k == 0
      invariant forall j :: 0 <= j < k ==> Contribution(pieces[j], byClass[order[j]], targetMax)
    {
      var items := byClass[order[k]];
      if |items| > targetMax && targetMax < 0 {
        return Failure(SampleError), pieces;
      }
      items := Cap(items, targetMax);
      FlattenPush(pieces, items);
      pieces := pieces + [items];
      finalData := finalData + items;
    }
    capped := Success(finalData);
  }

  /** The pieces the classes contributed, each a sample of its bucket. */
  ghost predicate Contributed(rows: seq<Row>, targetMax: int, pieces: seq<seq<Example>>) {
    |pieces| == |ClassOrder| && forall j :: 0 <= j < |ClassOrder| ==> Contribution(pieces[j], Bucket(rows, ClassOrder[j]), targetMax)
  }

  /** Each class's examples in the export: as many as it contributed, all from its bucket. */
  ghost predicate PerClass(rows: seq<Row>, targetMax: int, out: seq<Example>) {
    forall verdict :: verdict in ClassOrder ==>
      var mine, bucket := WithLabel(out, verdict), Bucket(rows, verdict);
      && |mine| == (if |bucket| > targetMax then targetMax else |bucket|)
      && multiset(mine) <= multiset(bucket)
      && (|bucket| <= targetMax ==> multiset(mine) == multiset(bucket))
  }

  /** Every exported example is the example of a fetched row, with one of the four verdicts. */
  ghost predicate FromRows(rows: seq<Row>, out: seq<Example>) {
    forall e :: e in out ==> e.verdict in ClassOrder && exists r :: r in rows && e == ExampleOf(r)
  }

  lemma PiecesFromBuckets(rows: seq<Row>, targetMax: int, pieces: seq<seq<Example>>)
    requires Contributed(rows, targetMax, pieces)
    ensures forall j :: 0 <= j < |pieces| ==> forall e :: e in pieces[j] ==> e.verdict == ClassOrder[j] && e in Bucket(rows, ClassOrder[j])
  {
    forall j | 0 <= j < |pieces|
      ensures forall e :: e in pieces[j] ==> e.verdict == ClassOrder[j] && e in Bucket(rows, ClassOrder[j])
    {
      SubLabels(pieces[j], Bucket(rows, ClassOrder[j]), ClassOrder[j]);
    }
  }

  lemma ExportedFromRows(rows: seq<Row>, targetMax: int, pieces: seq<seq<Example>>, shuffled: seq<Example>)
    requires Contributed(rows, targetMax, pieces) && multiset(shuffled) == multiset(Flatten(pieces))
    ensures FromRows(rows, shuffled)
  {
    PiecesFromBuckets(rows, targetMax, pieces);
    forall e | e in shuffled
      ensures e.verdict in ClassOrder && exists r :: r in rows && e == ExampleOf(r)
    {
      assert multiset(Flatten(pieces))[e] > 0;
      var j := FlattenMember(pieces, e);
      assert e in Bucket(rows, ClassOrder[j]);
    }
  }

  lemma ExportedPerClass(rows: seq<Row>, targetMax: int, pieces: seq<seq<Example>>, shuffled: seq<Example>)
    requires Contributed(rows, targetMax, pieces) && multiset(shuffled) == multiset(Flatten(pieces))
    ensures PerClass(rows, targetMax, shuffled)
  {
    PiecesFromBuckets(rows, targetMax, pieces);
    forall verdict | verdict in ClassOrder
      ensures var mine, bucket := WithLabel(shuffled, verdict), Bucket(rows, verdict);
        && |mine| == (if |bucket| > targetMax then targetMax else |bucket|)
        && multiset(mine) <= multiset(bucket)
        && (|bucket| <= targetMax ==> multiset(mine) == multiset(bucket))
    {
      var j :| 0 <= j < |ClassOrder| && ClassOrder[j] == verdict;
      WithLabelPermutation(shuffled, Flatten(pieces), verdict);
      ClassesDistinct();
      WithLabelFlatten(pieces, ClassOrder, j);
      assert |WithLabel(shuffled, verdict)| == |multiset(WithLabel(shuffled, verdict))| == |pieces[j]|;
    }
  }

  /** An element of a concatenation comes from one of its pieces. */
  lemma {:induction false} FlattenMember<T>(pieces: seq<seq<T>>, x: T) returns (j: nat)
    requires x in Flatten(pieces)
    ensures j < |pieces| && x in pieces[j]
    decreases |pieces|
  {
    var n := |pieces| - 1;
    if x in pieces[n] {
      j := n;
    } else {
      j := FlattenMember(pieces[..n], x);
    }
  }
}
