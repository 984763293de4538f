/**
 What the batch partitioner promises about its result: which outcome it has,
 which batch numbers exist, how full each batch is, where every example lands,
 that reading the batches back in order gives the dataset (in its original
 order when not shuffled, as a rearrangement when shuffled), and that the
 three fields stay aligned.

 The first group states these facts for one field (`Batch` of a sequence read
 in some order); the second lifts them to the outcome `BatchSpec`, which the
 loop `TransformBatchData` is proved to compute.
 */
module BatchProperties {
  import opened Indices
  import opened Chunks
  import opened Batching

  // ---------------------------------------------------------------------
  // One field
  // ---------------------------------------------------------------------

  /** The batches of n entries carry exactly the keys 0..ceil(n / b)-1. */
  lemma BatchShape<T>(s: seq<T>, order: seq<nat>, b: nat)
    requires InRange(order, |s|) && b > 0
    ensures |Batch(s, order, b)| == (|order| + b - 1) / b
    ensures forall k: nat :: k in Batch(s, order, b) <==> k < (|order| + b - 1) / b
  {
    var c := Chunk(Gather(s, order), b);
    ChunkCount(Gather(s, order), b);
    ToMapSize(c);
  }

  /** Every batch holds 1..b entries, and every batch but the last exactly b. */
  lemma BatchFull<T>(s: seq<T>, order: seq<nat>, b: nat)
    requires InRange(order, |s|)
    requires b > 0 || order == []
    ensures FullBatches(Batch(s, order, b), b)
  {
    if b > 0 {
      ChunkSizes(Gather(s, order), b);
    }
  }

  /** The entry visited at position i of the order lands in batch i / b, at offset i % b. */
  lemma BatchPositions<T>(s: seq<T>, order: seq<nat>, b: nat)
    requires InRange(order, |s|) && b > 0
    ensures forall i :: 0 <= i < |order| ==>
      i / b in Batch(s, order, b) && i % b < |Batch(s, order, b)[i / b]| && Batch(s, order, b)[i / b][i % b] == s[order[i]]
  {
    ChunkPosition(Gather(s, order), b);
  }

  /** Concatenating the batches in key order gives the entries in visiting order. */
  lemma BatchFlatten<T>(s: seq<T>, order: seq<nat>, b: nat)
    requires InRange(order, |s|)
    requires b > 0 || order == []
    ensures forall k: nat :: k < |Batch(s, order, b)| ==> k in Batch(s, order, b)
    ensures Flatten(InKeyOrder(Batch(s, order, b))) == Gather(s, order)
  {
    var c := Chunk(Gather(s, order), b);
    InKeyOrderToMap(c);
    if b > 0 {
      ChunkFlatten(Gather(s, order), b);
    }
  }

  /** Two fields read in the same order have the same keys and batches of the same sizes. */
  lemma BatchSameShape<T, U>(s: seq<T>, t: seq<U>, order: seq<nat>, b: nat)
    requires InRange(order, |s|) && InRange(order, |t|)
    requires b > 0 || order == []
    ensures forall k :: k in Batch(s, order, b) <==> k in Batch(t, order, b)
    ensures forall k :: k in Batch(s, order, b) ==> |Batch(s, order, b)[k]| == |Batch(t, order, b)[k]|
  {
    if b > 0 {
      ChunkSameShape(Gather(s, order), Gather(t, order), b);
    }
  }

  // ---------------------------------------------------------------------
  // The partitioner's outcome
  // ---------------------------------------------------------------------

  /** The order the partitioner visits lies within every field that is long enough. */
  lemma OrderFits<P, H>(data: Dataset<P, H>, shuffle: bool, perm: seq<nat>)
    requires ValidOrder(data, shuffle, perm)
    requires |data.premises| >= |data.labels| && |data.hypotheses| >= |data.labels|
    ensures var order := IndexOrder(|data.labels|, shuffle, perm);
      InRange(order, |data.premises|) && InRange(order, |data.hypotheses|) && InRange(order, |data.labels|)
  {
  }

  /** The partitioner raises a division by zero exactly when there is an
      example and the batch size is 0; it raises an index error exactly when
      the batch size is nonzero and the premises or hypotheses are fewer than
      the labels; otherwise it returns batches. */
  lemma Outcome<P, H>(data: Dataset<P, H>, batchSize: int, shuffle: bool, perm: seq<nat>)
    requires ValidOrder(data, shuffle, perm)
    ensures var n := |data.labels|;
      BatchSpec(data, batchSize, shuffle, perm) == Err(ZeroDivision) <==> n > 0 && batchSize == 0
    ensures var n := |data.labels|;
      BatchSpec(data, batchSize, shuffle, perm) == Err(IndexOutOfRange) <==>
        batchSize != 0 && (|data.premises| < n || |data.hypotheses| < n)
    ensures var n := |data.labels|;
      BatchSpec(data, batchSize, shuffle, perm).Ok? <==>
        n == 0 || (batchSize != 0 && |data.premises| >= n && |data.hypotheses| >= n)
  {
  }

  /** A dataset without examples gives three empty dictionaries, whatever the
      batch size, the shuffle flag and any surplus premises or hypotheses. */
  lemma EmptyDataset<P, H>(data: Dataset<P, H>, batchSize: int, shuffle: bool, perm: seq<nat>)
    requires ValidOrder(data, shuffle, perm)
    requires data.labels == []
    ensures BatchSpec(data, batchSize, shuffle, perm) == Ok(BatchData(map[], map[], map[]))
  {
    var order := IndexOrder(0, shuffle, perm);
    var b := Magnitude(batchSize);
    BatchFlatten(data.premises, order, b);
    BatchFlatten(data.hypotheses, order, b);
    BatchFlatten(data.labels, order, b);
  }

  /** Every field's dictionary has the keys 0, 1, ..., k-1 and no others, for
      k = ceil(n / |batch size|) batches. */
  lemma BatchKeys<P, H>(data: Dataset<P, H>, batchSize: int, shuffle: bool, perm: seq<nat>)
    requires ValidOrder(data, shuffle, perm)
    requires BatchSpec(data, batchSize, shuffle, perm).Ok?
    ensures var d, count := BatchSpec(data, batchSize, shuffle, perm).value, BatchCount(|data.labels|, batchSize);
      && |d.premises| == count && |d.hypotheses| == count && |d.labels| == count
      && (forall k: nat :: k in d.premises <==> k < count)
      && (forall k: nat :: k in d.hypotheses <==> k < count)
      && (forall k: nat :: k in d.labels <==> k < count)
  {
    var n := |data.labels|;
    var order := IndexOrder(n, shuffle, perm);
    var b := Magnitude(batchSize);
    OrderFits(data, shuffle, perm);
    if batchSize == 0 {
      EmptyDataset(data, batchSize, shuffle, perm);
    } else {
      BatchShape(data.premises, order, b);
      BatchShape(data.hypotheses, order, b);
      BatchShape(data.labels, order, b);
    }
  }

  /** Every batch holds between 1 and |batch size| examples, and every batch
      but the last is full. */
  lemma BatchSizes<P, H>(data: Dataset<P, H>, batchSize: int, shuffle: bool, perm: seq<nat>)
    requires ValidOrder(data, shuffle, perm)
    requires BatchSpec(data, batchSize, shuffle, perm).Ok?
    ensures var d, b := BatchSpec(data, batchSize, shuffle, perm).value, Magnitude(batchSize);
      FullBatches(d.premises, b) && FullBatches(d.hypotheses, b) && FullBatches(d.labels, b)
  {
    var order := IndexOrder(|data.labels|, shuffle, perm);
    var b := Magnitude(batchSize);
    OrderFits(data, shuffle, perm);
    BatchFull(data.premises, order, b);
    BatchFull(data.hypotheses, order, b);
    BatchFull(data.labels, order, b);
  }

  /** The example visited i-th (the i-th of the shuffled order, or example i
      when not shuffled) lands in batch i / |batch size| at offset
      i % |batch size|, in all three fields. */
  lemma BatchPosition<P, H>(data: Dataset<P, H>, batchSize: int, shuffle: bool, perm: seq<nat>)
    requires ValidOrder(data, shuffle, perm)
    requires BatchSpec(data, batchSize, shuffle, perm).Ok?
    ensures var d, b := BatchSpec(data, batchSize, shuffle, perm).value, Magnitude(batchSize);
      var order := IndexOrder(|data.labels|, shuffle, perm);
      forall i :: 0 <= i < |order| ==>
        && i / b in d.premises && i / b in d.hypotheses && i / b in d.labels
        && i % b < |d.premises[i / b]| && d.premises[i / b][i % b] == data.premises[order[i]]
        && i % b < |d.hypotheses[i / b]| && d.hypotheses[i / b][i % b] == data.hypotheses[order[i]]
        && i % b < |d.labels[i / b]| && d.labels[i / b][i % b] == data.labels[order[i]]
  {
    var order := IndexOrder(|data.labels|, shuffle, perm);
    var b := Magnitude(batchSize);
    OrderFits(data, shuffle, perm);
    if order != [] {
      BatchPositions(data.premises, order, b);
      BatchPositions(data.hypotheses, order, b);
      BatchPositions(data.labels, order, b);
    }
  }

  /** Concatenating each field's batches in key order gives that field read
      in the visiting order: the same order for all three fields. */
  lemma BatchConcat<P, H>(data: Dataset<P, H>, batchSize: int, shuffle: bool, perm: seq<nat>)
    requires ValidOrder(data, shuffle, perm)
    requires BatchSpec(data, batchSize, shuffle, perm).Ok?
    ensures var d := BatchSpec(data, batchSize, shuffle, perm).value;
      && (forall k: nat :: k < |d.premises| ==> k in d.premises)
      && (forall k: nat :: k < |d.hypotheses| ==> k in d.hypotheses)
      && (forall k: nat :: k < |d.labels| ==> k in d.labels)
    ensures var d, order := BatchSpec(data, batchSize, shuffle, perm).value, IndexOrder(|data.labels|, shuffle, perm);
      && InRange(order, |data.premises|) && InRange(order, |data.hypotheses|)
      && Flatten(InKeyOrder(d.premises)) == Gather(data.premises, order)
      && Flatten(InKeyOrder(d.hypotheses)) == Gather(data.hypotheses, order)
      && Flatten(InKeyOrder(d.labels)) == Gather(data.labels, order)
  {
    var order := IndexOrder(|data.labels|, shuffle, perm);
    var b := Magnitude(batchSize);
    OrderFits(data, shuffle, perm);
    BatchFlatten(data.premises, order, b);
    BatchFlatten(data.hypotheses, order, b);
    BatchFlatten(data.labels, order, b);
  }

  /** Without shuffling, concatenating the batches in key order gives back the
      dataset: the first n premises and hypotheses and all n labels. */
  lemma Unshuffled<P, H>(data: Dataset<P, H>, batchSize: int, perm: seq<nat>)
    requires BatchSpec(data, batchSize, false, perm).Ok?
    ensures var d := BatchSpec(data, batchSize, false, perm).value;
      && (forall k: nat :: k < |d.premises| ==> k in d.premises)
      && (forall k: nat :: k < |d.hypotheses| ==> k in d.hypotheses)
      && (forall k: nat :: k < |d.labels| ==> k in d.labels)
    ensures var d, n := BatchSpec(data, batchSize, false, perm).value, |data.labels|;
      && n <= |data.premises| && n <= |data.hypotheses|
      && Flatten(InKeyOrder(d.premises)) == data.premises[..n]
      && Flatten(InKeyOrder(d.hypotheses)) == data.hypotheses[..n]
      && Flatten(InKeyOrder(d.labels)) == data.labels
  {
    var n := |data.labels|;
    BatchConcat(data, batchSize, false, perm);
    GatherPrefix(data.premises, n);
    GatherPrefix(data.hypotheses, n);
    GatherPrefix(data.labels, n);
  }

  /** With any shuffle order, the batches hold the dataset's examples, each as
      often as it occurs: their concatenation is a rearrangement of the first n
      premises and hypotheses and of the labels. */
  lemma Shuffled<P, H>(data: Dataset<P, H>, batchSize: int, shuffle: bool, perm: seq<nat>)
    requires ValidOrder(data, shuffle, perm)
    requires BatchSpec(data, batchSize, shuffle, perm).Ok?
    ensures var d := BatchSpec(data, batchSize, shuffle, perm).value;
      && (forall k: nat :: k < |d.premises| ==> k in d.premises)
      && (forall k: nat :: k < |d.hypotheses| ==> k in d.hypotheses)
      && (forall k: nat :: k < |d.labels| ==> k in d.labels)
    ensures var d, n := BatchSpec(data, batchSize, shuffle, perm).value, |data.labels|;
      && n <= |data.premises| && n <= |data.hypotheses|
      && |Flatten(InKeyOrder(d.labels))| == n
      && multiset(Flatten(InKeyOrder(d.premises))) == multiset(data.premises[..n])
      && multiset(Flatten(InKeyOrder(d.hypotheses))) == multiset(data.hypotheses[..n])
      && multiset(Flatten(InKeyOrder(d.labels))) == multiset(data.labels)
  {
    var n := |data.labels|;
    var order := IndexOrder(n, shuffle, perm);
    BatchConcat(data, batchSize, shuffle, perm);
    GatherPermutation(data.premises, order, n);
    GatherPermutation(data.hypotheses, order, n);
    GatherPermutation(data.labels, order, n);
    assert data.labels[..n] == data.labels;
  }

  /** The three dictionaries have the same keys, and under each key batches
      of the same length, so the i-th entries of a batch form one example. */
  lemma Alignment<P, H>(data: Dataset<P, H>, batchSize: int, shuffle: bool, perm: seq<nat>)
    requires ValidOrder(data, shuffle, perm)
    requires BatchSpec(data, batchSize, shuffle, perm).Ok?
    ensures var d := BatchSpec(data, batchSize, shuffle, perm).value;
      && (forall k :: k in d.premises <==> k in d.labels)
      && (forall k :: k in d.hypotheses <==> k in d.labels)
      && (forall k :: k in d.labels ==> |d.premises[k]| == |d.labels[k]| && |d.hypotheses[k]| == |d.labels[k]|)
  {
    var order := IndexOrder(|data.labels|, shuffle, perm);
    var b := Magnitude(batchSize);
    OrderFits(data, shuffle, perm);
    BatchSameShape(data.premises, data.labels, order, b);
    BatchSameShape(data.hypotheses, data.labels, order, b);
  }
}
