/**
 * Rows appended one at a time to a pending list that is written out whenever
 * it holds `batch_size` rows, with a final write of whatever is left: the
 * shape of the insert loop in 01_ingest.py and the update loop in 02_label.py.
 */
module Batching {

  /** All rows of the batches, batch after batch. */
  function Flatten<T>(batches: seq<seq<T>>): (rows: seq<T>)
    decreases |batches|
  {
    if batches == [] then [] else Flatten(batches[..|batches| - 1]) + batches[|batches| - 1]
  }

  /** Flushing one more batch appends its rows. */
  lemma FlattenPush<T>(batches: seq<seq<T>>, b: seq<T>)
    ensures Flatten(batches + [b]) == Flatten(batches) + b
  {
    assert (batches + [b])[..|batches|] == batches;
  }

  /** Every batch holds between one and `n` rows, and all but the last hold exactly `n`. */
  predicate WellBatched<T>(batches: seq<seq<T>>, n: nat) {
    forall i :: 0 <= i < |batches| ==> 0 < |batches[i]| <= n && (i < |batches| - 1 ==> |batches[i]| == n)
  }

  /** The number of rows a batch size lets through before a flush: `len(rows) >= batch_size` flushes every row when the size is not positive. */
  function EffectiveSize(batchSize: int): (n: nat)
    ensures n >= 1 && (batchSize >= 1 ==> n == batchSize)
  {
    if batchSize >= 1 then batchSize else 1
  }

  /**
   * One row for the pending batch, which is written out once it holds
   * `batchSize` rows (`if len(rows) >= batch_size`); `written` counts the
   * rows that went out.
   */
  method Add<T>(batches: seq<seq<T>>, pending: seq<T>, x: T, batchSize: int)
    returns (batches': seq<seq<T>>, pending': seq<T>, written: nat)
    requires forall b :: 0 <= b < |batches| ==> |batches[b]| == EffectiveSize(batchSize)
    requires |pending| < EffectiveSize(batchSize)
    ensures Flatten(batches') + pending' == Flatten(batches) + pending + [x]
    ensures forall b :: 0 <= b < |batches'| ==> |batches'[b]| == EffectiveSize(batchSize)
    ensures |pending'| < EffectiveSize(batchSize)
    ensures |Flatten(batches')| == |Flatten(batches)| + written
  {
    batches', pending', written := batches, pending + [x], 0;
    if |pending'| >= batchSize {
      FlattenPush(batches, pending');
      batches' := batches + [pending'];
      written := |pending'|;
      pending' := [];
    }
  }

  /** The final partial batch, written when it is not empty. */
  method Flush<T>(batches: seq<seq<T>>, pending: seq<T>, n: nat) returns (batches': seq<seq<T>>, written: nat)
    requires forall b :: 0 <= b < |batches| ==> |batches[b]| == n
    requires |pending| < n
    ensures Flatten(batches') == Flatten(batches) + pending
    ensures WellBatched(batches', n)
    ensures |Flatten(batches')| == |Flatten(batches)| + written
  {
    batches', written := batches, 0;
    if pending != [] {
      FlattenPush(batches, pending);
      batches' := batches + [pending];
      written := |pending|;
    } else {
      assert pending + [] == pending;
    }
  }

  /**
   * Well-batched rows are split in exactly one way: the batches are the
   * consecutive runs of `n` rows, whatever produced them.
   */
  lemma {:induction false} WellBatchedUnique<T>(a: seq<seq<T>>, b: seq<seq<T>>, n: nat)
    requires WellBatched(a, n) && WellBatched(b, n) && Flatten(a) == Flatten(b)
    ensures a == b
    decreases |a|
  {
    if a == [] || b == [] {
      EmptyFlatten(a);
      EmptyFlatten(b);
    } else {
      var la, lb := a[|a| - 1], b[|b| - 1];
      var ia, ib := a[..|a| - 1], b[..|b| - 1];
      FullBatchesLength(ia, n);
      FullBatchesLength(ib, n);
      // |Flatten(ia)| = n * (|a| - 1), and 0 < |la| <= n, so the counts agree.
      var total := |Flatten(a)|;
      assert total == n * (|a| - 1) + |la|;
      assert total == n * (|b| - 1) + |lb|;
      CountsAgree(n, |a| - 1, |la|, |b| - 1, |lb|);
      assert Flatten(ia) == Flatten(a)[..total - |la|];
      assert Flatten(ib) == Flatten(b)[..total - |lb|];
      assert WellBatched(ia, n) by { AllFullWellBatched(ia, n); }
      assert WellBatched(ib, n) by { AllFullWellBatched(ib, n); }
      WellBatchedUnique(ia, ib, n);
      assert la == Flatten(a)[total - |la|..];
      assert lb == Flatten(b)[total - |lb|..];
      assert a == ia + [la];
      assert b == ib + [lb];
    }
  }

  lemma EmptyFlatten<T>(a: seq<seq<T>>)
    requires forall i :: 0 <= i < |a| ==> |a[i]| > 0
    ensures a == [] <==> Flatten(a) == []
  {
    if a != [] {
      assert |Flatten(a)| >= |a[|a| - 1]|;
    }
  }

  lemma {:induction false} FullBatchesLength<T>(a: seq<seq<T>>, n: nat)
    requires forall i :: 0 <= i < |a| ==> |a[i]| == n
    ensures |Flatten(a)| == n * |a|
    decreases |a|
  {
    if a != [] {
      FullBatchesLength(a[..|a| - 1], n);
    }
  }

  lemma AllFullWellBatched<T>(a: seq<seq<T>>, n: nat)
    requires n > 0 && forall i :: 0 <= i < |a| ==> |a[i]| == n
    ensures WellBatched(a, n)
  {
  }

  lemma CountsAgree(n: nat, p: nat, x: nat, q: nat, y: nat)
    requires 0 < x <= n && 0 < y <= n && n * p + x == n * q + y
    ensures p == q && x == y
  {
    if p < q {
      MulMonotone(n, p + 1, q);
    } else if q < p {
      MulMonotone(n, q + 1, p);
    }
  }

  lemma MulMonotone(n: nat, a: nat, b: nat)
    requires a <= b
    ensures n * a <= n * b
  {
  }
}
