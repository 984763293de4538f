/**
 Splitting a sequence into consecutive batches of a fixed size, and the
 batch-number-keyed dictionaries the batches are stored in.
 */
module Chunks {
  import opened Arithmetic

  /** The concatenation of the pieces, in order. */
  function Flatten<T>(ss: seq<seq<T>>): seq<T> {
    if ss == [] then [] else ss[0] + Flatten(ss[1..])
  }

  /** Consecutive pieces of `s`: each piece holds the next `b` elements, the
      last one whatever remains. An empty sequence has no pieces. */
  function Chunk<T>(s: seq<T>, b: nat): (r: seq<seq<T>>)
    requires b > 0 || s == []
    ensures r == [] <==> s == []
    decreases |s|
  {
    if s == [] then []
    else if |s| <= b then [s]
    else [s[..b]] + Chunk(s[b..], b)
  }

  /** The dictionary keyed 0, 1, ..., |ss|-1 holding the entries of `ss`. */
  function ToMap<T>(ss: seq<T>): map<nat, T> {
    map k: nat | k < |ss| :: ss[k]
  }

  /** The values of a dictionary keyed 0, 1, ..., |m|-1, in key order. */
  function InKeyOrder<T>(m: map<nat, T>): seq<T>
    requires forall k: nat :: k < |m| ==> k in m
  {
    seq(|m|, k requires 0 <= k < |m| => m[k])
  }

  /** Concatenating the pieces in order gives back the sequence. */
  lemma {:induction false} ChunkFlatten<T>(s: seq<T>, b: nat)
    requires b > 0
    ensures Flatten(Chunk(s, b)) == s
    decreases |s|
  {
    if |s| > b {
      var rest := Chunk(s[b..], b);
      ChunkFlatten(s[b..], b);
      assert ([s[..b]] + rest)[1..] == rest;
      assert s == s[..b] + s[b..];
    }
  }

  /** Every piece holds between 1 and b elements, and every piece but the last exactly b. */
  lemma {:induction false} ChunkSizes<T>(s: seq<T>, b: nat)
    requires b > 0
    ensures forall k :: 0 <= k < |Chunk(s, b)| ==> 0 < |Chunk(s, b)[k]| <= b
    ensures forall k :: 0 <= k < |Chunk(s, b)| - 1 ==> |Chunk(s, b)[k]| == b
    decreases |s|
  {
    if |s| > b {
      ChunkSizes(s[b..], b);
      var c, rest := Chunk(s, b), Chunk(s[b..], b);
      assert c == [s[..b]] + rest;
      forall k | 0 < k < |c|
        ensures c[k] == rest[k - 1]
      {
      }
    }
  }

  /** There are ceil(|s| / b) pieces. */
  lemma {:induction false} ChunkCount<T>(s: seq<T>, b: nat)
    requires b > 0
    ensures |Chunk(s, b)| == (|s| + b - 1) / b
    decreases |s|
  {
    if s == [] {
      DivModUnique(b - 1, b, 0, b - 1);
    } else if |s| <= b {
      DivModUnique(|s| + b - 1, b, 1, |s| - 1);
    } else {
      ChunkCount(s[b..], b);
      DivModShift(|s| + b - 1, b);
    }
  }

  /** A sequence longer than one batch splits into a full first piece and the pieces of the rest. */
  lemma ChunkUnfold<T>(s: seq<T>, b: nat)
    requires 0 < b < |s|
    ensures Chunk(s, b) == [s[..b]] + Chunk(s[b..], b)
  {
  }

  /** The element at position i lands in piece i / b, at offset i % b. */
  lemma {:induction false} ChunkPositionAt<T>(s: seq<T>, b: nat, i: nat)
    requires b > 0 && i < |s|
    ensures i / b < |Chunk(s, b)|
    ensures i % b < |Chunk(s, b)[i / b]|
    ensures Chunk(s, b)[i / b][i % b] == s[i]
    decreases |s|
  {
    if i < b {
      DivModUnique(i, b, 0, i);
      if |s| > b {
        ChunkUnfold(s, b);
      }
    } else {
      DivModShift(i, b);
      ChunkUnfold(s, b);
      ChunkPositionAt(s[b..], b, i - b);
      assert s[b..][i - b] == s[i];
    }
  }

  /** Every element lands in piece i / b, at offset i % b. */
  lemma ChunkPosition<T>(s: seq<T>, b: nat)
    requires b > 0
    ensures forall i :: 0 <= i < |s| ==>
      i / b < |Chunk(s, b)| && i % b < |Chunk(s, b)[i / b]| && Chunk(s, b)[i / b][i % b] == s[i]
  {
    forall i | 0 <= i < |s|
      ensures i / b < |Chunk(s, b)| && i % b < |Chunk(s, b)[i / b]| && Chunk(s, b)[i / b][i % b] == s[i]
    {
      ChunkPositionAt(s, b, i);
    }
  }

  /** How a sequence is cut depends only on its length: two sequences of the
      same length have as many pieces, of the same sizes. */
  lemma {:induction false} ChunkSameShape<T, U>(s: seq<T>, t: seq<U>, b: nat)
    requires b > 0 && |s| == |t|
    ensures |Chunk(s, b)| == |Chunk(t, b)|
    ensures forall k :: 0 <= k < |Chunk(s, b)| ==> |Chunk(s, b)[k]| == |Chunk(t, b)[k]|
    decreases |s|
  {
    if |s| > b {
      ChunkSameShape(s[b..], t[b..], b);
      ChunkUnfold(s, b);
      ChunkUnfold(t, b);
    }
  }

  /** The pieces with one more element appended to the last one. */
  function ExtendLast<T>(c: seq<seq<T>>, x: T): seq<seq<T>>
    requires c != []
  {
    c[..|c| - 1] + [c[|c| - 1] + [x]]
  }

  /** Appending one element to fewer than b elements extends the only piece. */
  lemma ChunkSnocShort<T>(t: seq<T>, x: T, b: nat)
    requires 0 < |t| < b
    ensures |t| % b != 0
    ensures Chunk(t, b) == [t]
    ensures Chunk(t + [x], b) == [t + [x]]
  {
    DivModUnique(|t|, b, 0, |t|);
  }

  /** Appending one element to exactly b elements opens a second piece. */
  lemma ChunkSnocFull<T>(t: seq<T>, x: T, b: nat)
    requires 0 < |t| == b
    ensures |t| % b == 0
    ensures Chunk(t + [x], b) == [t, [x]]
  {
    DivModUnique(|t|, b, 1, 0);
    ChunkUnfold(t + [x], b);
    assert (t + [x])[..b] == t;
    assert (t + [x])[b..] == [x];
  }

  /** Extending the last of several pieces leaves the first piece alone. */
  lemma ExtendLastCons<T>(first: seq<T>, c: seq<seq<T>>, x: T)
    requires c != []
    ensures ExtendLast([first] + c, x) == [first] + ExtendLast(c, x)
  {
    var d := [first] + c;
    assert d[..|d| - 1] == [first] + c[..|c| - 1];
    assert d[|d| - 1] == c[|c| - 1];
  }

  /** Appending one element either opens a new piece (when every piece so far
      is full) or extends the last piece. */
  lemma {:induction false} ChunkSnoc<T>(t: seq<T>, x: T, b: nat)
    requires b > 0
    ensures |t| % b == 0 ==> Chunk(t + [x], b) == Chunk(t, b) + [[x]]
    ensures |t| % b != 0 ==> Chunk(t, b) != [] && Chunk(t + [x], b) == ExtendLast(Chunk(t, b), x)
    decreases |t|
  {
    if t == [] {
      assert [] + [x] == [x];
    } else if |t| < b {
      ChunkSnocShort(t, x, b);
    } else if |t| == b {
      ChunkSnocFull(t, x, b);
    } else {
      ChunkSnoc(t[b..], x, b);
      DivModShift(|t|, b);
      ChunkSnocCons(t, x, b, |t| % b == 0);
    }
  }

  /** The step case of ChunkSnoc: for more than b elements, appending behaves
      on the pieces after the first as it does on the elements after the first
      b, where `full` says whether every piece so far is full. */
  lemma ChunkSnocCons<T>(t: seq<T>, x: T, b: nat, full: bool)
    requires 0 < b < |t|
    requires full ==> Chunk(t[b..] + [x], b) == Chunk(t[b..], b) + [[x]]
    requires !full ==> Chunk(t[b..], b) != [] && Chunk(t[b..] + [x], b) == ExtendLast(Chunk(t[b..], b), x)
    ensures full ==> Chunk(t + [x], b) == Chunk(t, b) + [[x]]
    ensures !full ==> Chunk(t, b) != [] && Chunk(t + [x], b) == ExtendLast(Chunk(t, b), x)
  {
    var rest := t[b..];
    ChunkUnfold(t, b);
    ChunkUnfold(t + [x], b);
    assert (t + [x])[..b] == t[..b];
    assert (t + [x])[b..] == rest + [x];
    var c, c' := Chunk(rest, b), Chunk(rest + [x], b);
    assert Chunk(t, b) == [t[..b]] + c;
    assert Chunk(t + [x], b) == [t[..b]] + c';
    if full {
      assert [t[..b]] + (c + [[x]]) == ([t[..b]] + c) + [[x]];
    } else {
      ExtendLastCons(t[..b], c, x);
    }
  }

  /** Storing one more piece adds the next key. */
  lemma ToMapAppend<T>(ss: seq<T>, c: T)
    ensures ToMap(ss + [c]) == ToMap(ss)[|ss| := c]
  {
  }

  /** Replacing the last piece replaces the value under the last key. */
  lemma ToMapReplaceLast<T>(ss: seq<T>, c: T)
    requires ss != []
    ensures ToMap(ss[..|ss| - 1] + [c]) == ToMap(ss)[|ss| - 1 := c]
  {
  }

  /** The dictionary has one key per piece. */
  lemma {:induction false} ToMapSize<T>(ss: seq<T>)
    ensures |ToMap(ss)| == |ss|
    decreases |ss|
  {
    if ss == [] {
      assert ToMap(ss) == map[];
    } else {
      var init := ss[..|ss| - 1];
      assert ss == init + [ss[|ss| - 1]];
      ToMapAppend(init, ss[|ss| - 1]);
      ToMapSize(init);
    }
  }

  /** Reading the dictionary back in key order gives the pieces in their original order. */
  lemma InKeyOrderToMap<T>(ss: seq<T>)
    ensures |ToMap(ss)| == |ss|
    ensures InKeyOrder(ToMap(ss)) == ss
  {
    ToMapSize(ss);
  }
}
