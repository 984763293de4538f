/**
 The batch partitioner of the ESIM evaluation script for SNLI: `transform_batch_data`
 splits a natural-language-inference dataset (three parallel sequences of
 premises, hypotheses and integer labels) into consecutive batches of a
 fixed size, optionally after shuffling the example order.

 The random shuffle is not modelled: the order it produces is a parameter
 `perm`, required to be a rearrangement of 0..n-1. `BatchSpec` is the
 functional description of the result; `TransformBatchData` follows the
 loop of `transform_batch_data` step by step and is proved to compute it.
 */
module Batching {
  import opened Indices
  import opened Chunks
  import opened Arithmetic

  /** A preprocessed dataset: the i-th premise, hypothesis and label form one example. */
  datatype Dataset<P, H> = Dataset(premises: seq<P>, hypotheses: seq<H>, labels: seq<int>)

  /** The batched dataset: for each of the three fields, batch number -> that batch's entries. */
  datatype BatchData<P, H> = BatchData(
    premises: map<nat, seq<P>>,
    hypotheses: map<nat, seq<H>>,
    labels: map<nat, seq<int>>)

  /** The exceptions the batching loop can raise: `i % batch_size` with a zero
      batch size, and reading a premise or hypothesis past the end of its sequence. */
  datatype BatchError = ZeroDivision | IndexOutOfRange

  datatype Result<T> = Ok(value: T) | Err(error: BatchError)

  /** The batch size's absolute value. A negative batch size divides the same
      positions as its absolute value, so it batches exactly like it. */
  function Magnitude(d: int): nat {
    if d < 0 then -d else d
  }

  /** The number of batches for n examples: n / |batchSize| rounded up. */
  function BatchCount(n: nat, batchSize: int): nat {
    if batchSize == 0 then 0 else (n + Magnitude(batchSize) - 1) / Magnitude(batchSize)
  }

  /** The shuffle order handed in is a rearrangement of 0..n-1, which is what an
      in-place shuffle of `arange(n)` produces. */
  ghost predicate ValidOrder<P, H>(data: Dataset<P, H>, shuffle: bool, perm: seq<nat>) {
    shuffle ==> IsPermutation(perm, |data.labels|)
  }

  /** Every batch holds between 1 and b entries, and every batch that has a
      successor holds exactly b. */
  ghost predicate FullBatches<T>(m: map<nat, seq<T>>, b: nat) {
    forall k :: k in m ==> 0 < |m[k]| <= b && (k + 1 in m ==> |m[k]| == b)
  }

  /** The order in which examples are visited: the ascending order, or the shuffled one. */
  function IndexOrder(n: nat, shuffle: bool, perm: seq<nat>): (r: seq<nat>)
    requires shuffle ==> IsPermutation(perm, n)
    ensures IsPermutation(r, n)
    ensures |r| == n && InRange(r, n)
  {
    var r := if shuffle then perm else Identity(n);
    PermutationInRange(r, n);
    r
  }

  /** The batches of one field: its elements read in `order`, cut into pieces of
      b, keyed by piece number. */
  function Batch<T>(s: seq<T>, order: seq<nat>, b: nat): map<nat, seq<T>>
    requires InRange(order, |s|)
    requires b > 0 || order == []
  {
    ToMap(Chunk(Gather(s, order), b))
  }

  /** What the batch partitioner returns or raises. The index range comes from
      the labels alone; premises or hypotheses that are too short make the loop
      fail, and any surplus beyond the number of labels is never read. */
  function BatchSpec<P, H>(data: Dataset<P, H>, batchSize: int, shuffle: bool, perm: seq<nat>): Result<BatchData<P, H>>
    requires ValidOrder(data, shuffle, perm)
  {
    var n := |data.labels|;
    if n > 0 && batchSize == 0 then Err(ZeroDivision)
    else if |data.premises| < n || |data.hypotheses| < n then Err(IndexOutOfRange)
    else
      var order := IndexOrder(n, shuffle, perm);
      var b := Magnitude(batchSize);
      Ok(BatchData(
        Batch(data.premises, order, b),
        Batch(data.hypotheses, order, b),
        Batch(data.labels, order, b)))
  }

  /** The script's test `i % batch_size == 0` holds exactly when |batch_size| divides i. */
  lemma ModMagnitude(i: nat, d: int)
    requires d != 0
    ensures i % d == 0 <==> i % Magnitude(d) == 0
  {
    if d < 0 {
      var m := -d;
      assert i == d * (i / d) + i % d && 0 <= i % d < m;
      assert i == m * (i / m) + i % m && 0 <= i % m < m;
      if i % m == 0 {
        assert i % d == (i / m + i / d) * m;
        MultipleBelow(i % d, m, i / m + i / d);
      }
      if i % d == 0 {
        assert i % m == (-(i / d) - i / m) * m;
        MultipleBelow(i % m, m, -(i / d) - i / m);
      }
    }
  }

  /** The number of batches one field has after the first i positions of the order. */
  function Opened<T>(s: seq<T>, order: seq<nat>, i: nat, b: nat): nat
    requires i <= |order| && InRange(order[..i], |s|)
    requires b > 0 || i == 0
  {
    |Chunk(Gather(s, order[..i]), b)|
  }

  /** The state of one field after the loop has handled the first i positions
      of the order: its dictionary holds the batches of those positions, and
      the current batch number `idx` is the last of them (-1 before any). */
  ghost predicate FieldState<T>(s: seq<T>, order: seq<nat>, i: nat, b: nat, m: map<nat, seq<T>>, idx: int) {
    && i <= |order|
    && (b > 0 || i == 0)
    && InRange(order[..i], |s|)
    && m == Batch(s, order[..i], b)
    && idx + 1 == Opened(s, order, i, b)
  }

  /** The state of the whole loop after the first i positions of the order:
      all three fields as `FieldState` describes, sharing the batch number. */
  ghost predicate LoopState<P, H>(data: Dataset<P, H>, index: seq<nat>, i: nat, b: nat, batchSize: int,
      premises: map<nat, seq<P>>, hypotheses: map<nat, seq<H>>, labels: map<nat, seq<int>>, idx: int) {
    && i <= |data.labels|
    && (i > 0 ==> batchSize != 0)
    && FieldState(data.premises, index, i, b, premises, idx)
    && FieldState(data.hypotheses, index, i, b, hypotheses, idx)
    && FieldState(data.labels, index, i, b, labels, idx)
  }

  /** One iteration of the loop on one field: the example at position i of the
      order either opens a new batch (when i is a multiple of b) or is
      appended to the last batch. */
  lemma BatchStep<T>(s: seq<T>, order: seq<nat>, i: nat, b: nat)
    requires i < |order| && b > 0
    requires InRange(order[..i + 1], |s|)
    ensures InRange(order[..i], |s|)
    ensures i % b == 0 ==>
      && Opened(s, order, i + 1, b) == Opened(s, order, i, b) + 1
      && Batch(s, order[..i + 1], b) == Batch(s, order[..i], b)[Opened(s, order, i, b) := [s[order[i]]]]
    ensures i % b != 0 ==>
      var last := Opened(s, order, i, b) - 1;
      && 0 <= last
      && Opened(s, order, i + 1, b) == last + 1
      && last in Batch(s, order[..i], b)
      && Batch(s, order[..i + 1], b) == Batch(s, order[..i], b)[last := Batch(s, order[..i], b)[last] + [s[order[i]]]]
  {
    var x := s[order[i]];
    assert order[..i + 1] == order[..i] + [order[i]];
    assert InRange(order[..i], |s|) by {
      forall j | 0 <= j < i
        ensures order[..i][j] < |s|
      {
        assert order[..i][j] == order[..i + 1][j];
      }
    }
    var t := Gather(s, order[..i]);
    assert |t| == i;
    assert Gather(s, order[..i + 1]) == t + [x];
    var c := Chunk(t, b);
    ChunkSnoc(t, x, b);
    if i % b == 0 {
      ToMapAppend(c, [x]);
    } else {
      ToMapReplaceLast(c, c[|c| - 1] + [x]);
    }
  }

  /** One iteration of the loop body on one field, as the script performs it:
      when a new batch is opened its key first gets an empty list (`current`
      is the dictionary after that), then the example is appended to the list
      under the current key. The outcome is the state after one more position
      of the order. */
  lemma AppendStep<T>(s: seq<T>, order: seq<nat>, i: nat, b: nat, m: map<nat, seq<T>>, idx: int, current: map<nat, seq<T>>, key: int)
    requires i < |order| && b > 0 && order[i] < |s|
    requires FieldState(s, order, i, b, m, idx)
    requires key == if i % b == 0 then idx + 1 else idx
    requires current == if i % b == 0 then m[idx + 1 := []] else m
    ensures 0 <= key && key in current
    ensures FieldState(s, order, i + 1, b, current[key := current[key] + [s[order[i]]]], key)
  {
    InRangeExtend(order, i, |s|);
    BatchStep(s, order, i, b);
    if i % b == 0 {
      assert current[key] + [s[order[i]]] == [s[order[i]]];
      assert current[key := [s[order[i]]]] == m[key := [s[order[i]]]];
    }
  }

  /** The script's `append` on one field: add the example at position i of the
      order to the list under the current key. Given the dictionary as the
      loop leaves it after the first i positions (with the new batch's empty
      list already added when i opens one), the result is the dictionary
      after the first i + 1 positions. */
  method AppendExample<T>(s: seq<T>, order: seq<nat>, i: nat, ghost b: nat, ghost m: map<nat, seq<T>>, ghost idx: int,
                          current: map<nat, seq<T>>, key: int)
    returns (next: map<nat, seq<T>>)
    requires i < |order| && b > 0 && order[i] < |s|
    requires FieldState(s, order, i, b, m, idx)
    requires key == if i % b == 0 then idx + 1 else idx
    requires current == if i % b == 0 then m[idx + 1 := []] else m
    ensures FieldState(s, order, i + 1, b, next, key)
  {
    AppendStep(s, order, i, b, m, idx, current, key);
    next := current[key := current[key] + [s[order[i]]]];
  }

  /** A loop that reaches a premise or hypothesis index past the end of its
      sequence corresponds to the outcome IndexOutOfRange. */
  lemma ShortFieldOutcome<P, H>(data: Dataset<P, H>, batchSize: int, shuffle: bool, perm: seq<nat>, i: nat)
    requires ValidOrder(data, shuffle, perm)
    requires batchSize != 0 && i < |data.labels|
    requires var index := IndexOrder(|data.labels|, shuffle, perm);
      index[i] >= |data.premises| || index[i] >= |data.hypotheses|
    ensures BatchSpec(data, batchSize, shuffle, perm) == Err(IndexOutOfRange)
  {
  }

  /** A loop that visits every position of the order without failing ends with
      the outcome the specification describes. */
  lemma FinishOutcome<P, H>(data: Dataset<P, H>, batchSize: int, shuffle: bool, perm: seq<nat>,
                            premises: map<nat, seq<P>>, hypotheses: map<nat, seq<H>>, labels: map<nat, seq<int>>)
    requires ValidOrder(data, shuffle, perm)
    requires var n, index := |data.labels|, IndexOrder(|data.labels|, shuffle, perm);
      && (n == 0 || batchSize != 0)
      && InRange(index[..n], |data.premises|) && InRange(index[..n], |data.hypotheses|)
      && InRange(index[..n], n)
      && premises == Batch(data.premises, index[..n], Magnitude(batchSize))
      && hypotheses == Batch(data.hypotheses, index[..n], Magnitude(batchSize))
      && labels == Batch(data.labels, index[..n], Magnitude(batchSize))
    ensures BatchSpec(data, batchSize, shuffle, perm) == Ok(BatchData(premises, hypotheses, labels))
  {
    var n, index := |data.labels|, IndexOrder(|data.labels|, shuffle, perm);
    assert index[..n] == index;
    if n > 0 {
      PermutationCovers(index, n, n - 1);
    }
  }

  /** One pass of the script's loop body at position i (batch size nonzero):
      open a new batch in all three fields when i is a multiple of the batch
      size, then append the example at position i of the order to the current
      batch of each field. Either a premise or hypothesis index is out of
      range, which is the partitioner's outcome, or the loop state advances to
      position i + 1. */
  method PlaceExample<P, H>(data: Dataset<P, H>, batchSize: int, shuffle: bool, perm: seq<nat>, index: seq<nat>, i: nat,
                            premises: map<nat, seq<P>>, hypotheses: map<nat, seq<H>>, labels: map<nat, seq<int>>, idx: int)
    returns (failed: bool, premises': map<nat, seq<P>>, hypotheses': map<nat, seq<H>>, labels': map<nat, seq<int>>, idx': int)
    requires ValidOrder(data, shuffle, perm)
    requires index == IndexOrder(|data.labels|, shuffle, perm)
    requires batchSize != 0 && i < |data.labels|
    requires LoopState(data, index, i, Magnitude(batchSize), batchSize, premises, hypotheses, labels, idx)
    ensures failed ==> BatchSpec(data, batchSize, shuffle, perm) == Err(IndexOutOfRange)
    ensures !failed ==> LoopState(data, index, i + 1, Magnitude(batchSize), batchSize, premises', hypotheses', labels', idx')
  {
    ghost var b := Magnitude(batchSize);
    ModMagnitude(i, batchSize);
    premises', hypotheses', labels', idx' := premises, hypotheses, labels, idx;
    if i % batchSize == 0 {
      idx' := idx' + 1;
      premises' := premises'[idx' := []];
      hypotheses' := hypotheses'[idx' := []];
      labels' := labels'[idx' := []];
    }
    if index[i] >= |data.premises| {
      ShortFieldOutcome(data, batchSize, shuffle, perm, i);
      return true, premises', hypotheses', labels', idx';
    }
    premises' := AppendExample(data.premises, index, i, b, premises, idx, premises', idx');
    if index[i] >= |data.hypotheses| {
      ShortFieldOutcome(data, batchSize, shuffle, perm, i);
      return true, premises', hypotheses', labels', idx';
    }
    hypotheses' := AppendExample(data.hypotheses, index, i, b, hypotheses, idx, hypotheses', idx');
    labels' := AppendExample(data.labels, index, i, b, labels, idx, labels', idx');
    failed := false;
  }

  /** The batch partitioner, following the script's loop: walk the positions of
      the order, open a new batch whenever the position is a multiple of the
      batch size, and append the example at that position to the current batch
      of each field. */
  method TransformBatchData<P, H>(data: Dataset<P, H>, batchSize: int, shuffle: bool, perm: seq<nat>)
    returns (r: Result<BatchData<P, H>>)
    requires ValidOrder(data, shuffle, perm)
    ensures r == BatchSpec(data, batchSize, shuffle, perm)
  {
    var premises: map<nat, seq<P>> := map[];
    var hypotheses: map<nat, seq<H>> := map[];
    var labels: map<nat, seq<int>> := map[];
    var n := |data.labels|;
    var index := IndexOrder(n, shuffle, perm);
    var idx: int := -1;
    var i := 0;
    while i < n
      invariant LoopState(data, index, i, Magnitude(batchSize), batchSize, premises, hypotheses, labels, idx)
    {
      if batchSize == 0 {
        return Err(ZeroDivision);
      }
      var failed;
      failed, premises, hypotheses, labels, idx := PlaceExample(data, batchSize, shuffle, perm, index, i, premises, hypotheses, labels, idx);
      if failed {
        return Err(IndexOutOfRange);
      }
      i := i + 1;
    }
    FinishOutcome(data, batchSize, shuffle, perm, premises, hypotheses, labels);
    return Ok(BatchData(premises, hypotheses, labels));
  }
}
