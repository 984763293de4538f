# Batch partitioning of an NLI dataset

The ESIM evaluation script for SNLI (`alreadrun/test_bert_snli.py`) cuts its
preprocessed dataset into batches with `transform_batch_data`. The dataset has
three parallel sequences: premises, hypotheses and integer labels. The
function builds a dictionary with one entry per field. Each entry maps a
batch number to the list of that field's values in the batch. The order of the
examples is `arange(n)` over the n labels, shuffled in place when the
`shuffle` flag is set. A new batch is opened whenever the loop position is a
multiple of the batch size, and the example at that position of the order is
appended to the current batch of every field.

This project models that function in Dafny:

- `arithmetic.dfy` (module `Arithmetic`): facts about Euclidean division that
  locate the batch a position falls in.
- `indices.dfy` (module `Indices`): the ascending order `arange(n)`
  (`Identity`) and its rearrangements (`IsPermutation`, which stands for what
  `np.random.shuffle` may produce), plus reading a sequence through an order
  (`Gather`). Lemmas show that a rearrangement lists each index below n exactly
  once, and that reading through it yields the same multiset.
- `chunks.dfy` (module `Chunks`): cutting a sequence into consecutive pieces of
  b elements (`Chunk`), concatenation (`Flatten`), and the dictionaries keyed
  0..k-1 (`ToMap`, `InKeyOrder`). Lemmas give the count, sizes and positions
  of the pieces, the round trip, and how appending one element changes the
  pieces.
- `batching.dfy` (module `Batching`): the dataset and result types, the
  exceptions the loop can raise, the functional description `BatchSpec`, and
  the method `TransformBatchData`. The method follows the script's loop and is
  proved to return `BatchSpec`.
- `properties.dfy` (module `BatchProperties`): the properties of the outcome.

`transform_batch_data` has no explicit error handling, but two inputs make it
raise, and the model returns both as `Err`:

- A batch size of 0 with at least one example fails in `i % batch_size`, a
  division by zero. With no examples the loop never runs, so nothing is
  raised.
- Premises or hypotheses shorter than the labels fail with an index error.
  The index range is taken from the labels alone, so any surplus premises or
  hypotheses are silently ignored.

A negative batch size is accepted. Python's `i % b == 0` holds exactly when
|b| divides i, so batches are cut by |b|. This is `Batching.Magnitude`,
justified by `Batching.ModMagnitude`.

The result is one dictionary per field, each keyed by batch number;
`BatchData` follows this.

## Model

| member | source | states |
|---|---|---|
| Batching.TransformBatchData | alreadrun/test_bert_snli.py:19-38 | The loop (open a batch when i is a multiple of the batch size, append the example at position i of the order to every field) returns exactly the outcome `BatchSpec` describes, including its two exceptions |
| Batching.PlaceExample | alreadrun/test_bert_snli.py:30-37 | One pass of the loop body either reaches a premise or hypothesis index past the end (the partitioner's outcome is then the index error) or extends every field's batches by the example at position i |
| Batching.AppendExample | alreadrun/test_bert_snli.py:35-37 | Appending to the current key turns the dictionary of the first i examples, with a new empty batch already added when one is opened, into the dictionary of the first i + 1 |
| Batching.AppendStep | alreadrun/test_bert_snli.py:30-37 | The key appended to is present: it is the new batch's key when i is a multiple of the batch size, otherwise the last batch's. Appending there yields the dictionary of the first i + 1 positions, with that key as the current batch number |
| Batching.BatchStep | alreadrun/test_bert_snli.py:30-35 | Visiting one more example opens batch number k with that example alone when i is a multiple of b; otherwise it appends the example to the last batch |
| Batching.ModMagnitude | alreadrun/test_bert_snli.py:30 | Python's test `i % batch_size == 0` with a negative batch size holds exactly when its absolute value divides i |
| Batching.IndexOrder | alreadrun/test_bert_snli.py:24-26 | The visiting order is a rearrangement of 0..n-1: `arange(n)` or its shuffle |
| Batching.ShortFieldOutcome | alreadrun/test_bert_snli.py:35-36 | An order index past the end of the premises or hypotheses means the outcome is an index error |
| Batching.FinishOutcome | alreadrun/test_bert_snli.py:29-38 | A loop that visits all n positions without failing returns the batches of the whole order |
| BatchProperties.Outcome | alreadrun/test_bert_snli.py:29-36 | Division by zero exactly when there is an example and the batch size is 0; an index error exactly when the batch size is nonzero and premises or hypotheses are fewer than labels; batches otherwise |
| BatchProperties.EmptyDataset | alreadrun/test_bert_snli.py:20-29 | No examples give three empty dictionaries, for every batch size and shuffle flag |
| BatchProperties.BatchKeys | alreadrun/test_bert_snli.py:28-34 | Each field's keys are exactly 0..k-1 with k = ceil(n / abs(batch size)), and each dictionary has k entries |
| BatchProperties.BatchSizes | alreadrun/test_bert_snli.py:29-37 | Every batch holds between 1 and abs(batch size) examples; every batch with a successor is full |
| BatchProperties.BatchPosition | alreadrun/test_bert_snli.py:29-37 | The example visited i-th is at offset i % b of batch i / b in all three fields |
| BatchProperties.BatchConcat | alreadrun/test_bert_snli.py:24-37 | The batches of each field, concatenated in key order, are that field read in the visiting order |
| BatchProperties.Unshuffled | alreadrun/test_bert_snli.py:24-37 | Without shuffling, the concatenated batches give back the first n premises and hypotheses and all the labels |
| BatchProperties.Shuffled | alreadrun/test_bert_snli.py:24-37 | With any shuffle order, the concatenated batches have n entries and are a rearrangement (same multiset) of the first n premises and hypotheses and of the labels |
| BatchProperties.Alignment | alreadrun/test_bert_snli.py:31-37 | The three dictionaries have the same keys and batches of equal length under each key |
| BatchProperties.BatchShape | alreadrun/test_bert_snli.py:29-34 | One field read in n positions has keys exactly 0..ceil(n / b)-1 |
| BatchProperties.BatchFull | alreadrun/test_bert_snli.py:29-37 | One field's batches all hold 1..b entries, and every batch except the last holds b |
| BatchProperties.BatchPositions | alreadrun/test_bert_snli.py:29-37 | In one field, position i of the order lands at batch i / b, offset i % b |
| BatchProperties.BatchFlatten | alreadrun/test_bert_snli.py:29-37 | One field's batches, in key order and concatenated, are the field read in the order |
| BatchProperties.BatchSameShape | alreadrun/test_bert_snli.py:32-37 | Two fields read in the same order get the same keys and batch lengths |
| Indices.PermutationInRange | alreadrun/test_bert_snli.py:24-26 | A shuffled `arange(n)` has n entries, all below n |
| Indices.PermutationCovers | alreadrun/test_bert_snli.py:24-26 | A shuffled `arange(n)` lists every index below n |
| Indices.PermutationDistinct | alreadrun/test_bert_snli.py:24-26 | A shuffled `arange(n)` lists no index twice |
| Indices.GatherPermutation | alreadrun/test_bert_snli.py:24-37 | Reading the first n entries through a shuffled `arange(n)` gives exactly those entries, each as often |
| Indices.GatherRearrange | alreadrun/test_bert_snli.py:35-37 | Two orders with the same multiset of indices read the same multiset of entries |
| Indices.GatherPrefix | alreadrun/test_bert_snli.py:24 | Reading through `arange(n)` gives the first n entries in order |
| Chunks.ChunkFlatten | alreadrun/test_bert_snli.py:29-37 | Concatenating the consecutive pieces gives back the sequence |
| Chunks.ChunkCount | alreadrun/test_bert_snli.py:29-31 | There are ceil(n / b) pieces |
| Chunks.ChunkSizes | alreadrun/test_bert_snli.py:29-37 | Every piece holds 1..b elements, and every piece but the last exactly b |
| Chunks.ChunkPosition | alreadrun/test_bert_snli.py:29-37 | The element at position i is in piece i / b at offset i % b |
| Chunks.ChunkSnoc | alreadrun/test_bert_snli.py:30-35 | Appending one element opens a new piece exactly when the length is a multiple of b; otherwise it extends the last piece |
| Chunks.ChunkSameShape | alreadrun/test_bert_snli.py:32-37 | How a sequence is cut depends only on its length |
| Chunks.InKeyOrderToMap | alreadrun/test_bert_snli.py:28-34 | Reading the dictionary keyed 0..k-1 back in key order gives the pieces in their order |
| Chunks.ToMapSize | alreadrun/test_bert_snli.py:28-34 | The dictionary has one key per piece |

## Left out

- The script's `main`, its command-line entry point, model construction, checkpoint loading and the call to the validation routine are not modelled. They load files and drive an external deep-learning framework.
- `np.random.shuffle` is not modelled as randomness. The shuffled order is the parameter `perm`, required to be a rearrangement of `arange(n)`. The model does not state that every rearrangement is equally likely.
- The `int(...)` conversion of labels is not modelled. Labels are assumed to be integers already, on which `int` returns its argument unchanged; a label that `int` converts (a float, a numeric string) or rejects is outside the model.
- The default argument values (`batch_size=64`, `shuffle=True`) are not modelled. Both calls in the script pass both arguments explicitly.
- Python's object identity and aliasing are not modelled. The dictionaries and batch lists are new, but every batch entry is the input's own element object, not a copy; the model treats elements as values, and the function itself mutates nothing.
- Chunks.ChunkPosition: states only that each position lands at batch i / b, offset i % b. It does not state the converse, that every batch entry comes from such a position. That follows from `BatchProperties.BatchSizes` together with `BatchProperties.BatchConcat`, which fix the batches completely.
