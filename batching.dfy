/** The fixed-size batching both delimited-file generators share: rows are
    collected into a list that is yielded and reset whenever it reaches the
    batch size, and whatever remains (possibly nothing) is yielded at the
    end. */
module Batching {

  /** The rows of all batches, in order. */
  function Flatten<T>(batches: seq<seq<T>>): seq<T>
  {
    if batches == [] then [] else batches[0] + Flatten(batches[1..])
  }

  lemma {:induction false} FlattenSnoc<T>(batches: seq<seq<T>>, b: seq<T>)
    ensures Flatten(batches + [b]) == Flatten(batches) + b
  {
    if batches != [] {
      assert (batches + [b])[1..] == batches[1..] + [b];
      FlattenSnoc(batches[1..], b);
    } else {
      assert [b][1..] == [];
    }
  }

  lemma {:induction false} FlattenOne<T>(b: seq<T>)
    ensures Flatten([b]) == b
  {
    assert [b][1..] == [];
    assert b + [] == b;
  }

  lemma {:induction false} FlattenAppend<T>(a: seq<seq<T>>, b: seq<seq<T>>)
    ensures Flatten(a + b) == Flatten(a) + Flatten(b)
    decreases |a|
  {
    if a == [] {
      assert a + b == b;
    } else {
      assert (a + b)[1..] == a[1..] + b;
      FlattenAppend(a[1..], b);
    }
  }

  /** Everything a generator yields when it reaches the end of its input:
      full batches, then the remainder, which is shorter than a batch and may
      be empty. */
  function Batches<T>(rows: seq<T>, size: nat): (batches: seq<seq<T>>)
    requires size > 0
    ensures |batches| >= 1
    ensures forall i :: 0 <= i < |batches| - 1 ==> |batches[i]| == size
    ensures |batches[|batches| - 1]| < size
    ensures Flatten(batches) == rows
    decreases |rows|
  {
    if |rows| < size then
      assert Flatten([rows]) == rows + Flatten<T>([]);
      [rows]
    else
      var rest := Batches(rows[size..], size);
      assert ([rows[..size]] + rest)[1..] == rest;
      assert rows == rows[..size] + rows[size..];
      [rows[..size]] + rest
  }

  /** What a generator has yielded before it raises: only the batches that
      were completed, never the partial one it was filling. */
  function FullBatches<T>(rows: seq<T>, size: nat): (batches: seq<seq<T>>)
    requires size > 0
    ensures forall i :: 0 <= i < |batches| ==> |batches[i]| == size
    ensures |Flatten(batches)| <= |rows| < |Flatten(batches)| + size
    ensures Flatten(batches) == rows[..|Flatten(batches)|]
    ensures Batches(rows, size) == batches + [rows[|Flatten(batches)|..]]
  {
    var all := Batches(rows, size);
    var last := all[|all| - 1];
    var batches := all[..|all| - 1];
    assert all == batches + [last];
    FlattenSnoc(batches, last);
    assert rows[|Flatten(batches)|..] == last;
    batches
  }

  /** Rows in, rows out: the batches hold exactly the rows, in order, and
      their lengths add up, full batches first. */
  lemma {:induction false} BatchesCount<T>(rows: seq<T>, size: nat)
    requires size > 0
    ensures |rows| == (|Batches(rows, size)| - 1) * size + |Batches(rows, size)[|Batches(rows, size)| - 1]|
  {
    var all := Batches(rows, size);
    var init := all[..|all| - 1];
    var last := all[|all| - 1];
    assert all == init + [last];
    FlattenSnoc(init, last);
    FullBatchesLength(init, size);
  }

  /** Full batches hold the batch size times their number of rows. */
  lemma {:induction false} FullBatchesLength<T>(full: seq<seq<T>>, size: nat)
    requires forall k :: 0 <= k < |full| ==> |full[k]| == size
    ensures |Flatten(full)| == |full| * size
    decreases |full|
  {
    if full != [] {
      FullBatchesLength(full[1..], size);
    }
  }

  /** A batch sequence shaped like a generator's output is determined by its
      rows: full batches followed by one short batch are exactly Batches of
      their concatenation, and the full ones alone exactly FullBatches. */
  lemma {:induction false} BatchesOfShape<T>(full: seq<seq<T>>, last: seq<T>, size: nat)
    requires size > 0
    requires forall i :: 0 <= i < |full| ==> |full[i]| == size
    requires |last| < size
    ensures Batches(Flatten(full) + last, size) == full + [last]
    decreases |full|
  {
    if full == [] {
      assert Flatten(full) + last == last;
    } else {
      var tail := Flatten(full[1..]) + last;
      BatchesOfShape(full[1..], last, size);
      FlattenConsAppend(full, last);
      BatchesCons(full[0], tail, size);
      SnocCons(full, last);
    }
  }

  lemma {:induction false} FlattenConsAppend<T>(full: seq<seq<T>>, last: seq<T>)
    requires full != []
    ensures Flatten(full) + last == full[0] + (Flatten(full[1..]) + last)
  {
  }

  lemma {:induction false} SnocCons<T>(s: seq<T>, x: T)
    requires s != []
    ensures s + [x] == [s[0]] + (s[1..] + [x])
  {
  }

  lemma {:induction false} BatchesCons<T>(head: seq<T>, tail: seq<T>, size: nat)
    requires size > 0 && |head| == size
    ensures Batches(head + tail, size) == [head] + Batches(tail, size)
  {
    var rows := head + tail;
    assert rows[..size] == head;
    assert rows[size..] == tail;
  }

  /** A generator part way through its input: the batches yielded so far
      are full, the list being filled is shorter than a batch, and together
      they hold the rows read so far, in order. */
  ghost predicate Filling<T>(batches: seq<seq<T>>, pending: seq<T>, size: nat, rows: seq<T>)
  {
    && size > 0
    && (forall k :: 0 <= k < |batches| ==> |batches[k]| == size)
    && |pending| < size
    && Flatten(batches) + pending == rows
  }

  /** Appending a row to the list keeps the generator's state, once the list
      is yielded and reset on reaching the batch size. */
  lemma {:induction false} FillingPush<T>(batches: seq<seq<T>>, pending: seq<T>, size: nat, rows: seq<T>, row: T)
    requires Filling(batches, pending, size, rows)
    ensures |pending + [row]| == size ==> Filling(batches + [pending + [row]], [], size, rows + [row])
    ensures |pending + [row]| < size ==> Filling(batches, pending + [row], size, rows + [row])
  {
    var p := pending + [row];
    FlattenSnoc(batches, p);
    assert Flatten(batches) + p == rows + [row];
    assert Flatten(batches + [p]) + [] == Flatten(batches + [p]);
  }

  /** At the end of the input, yielding the list that was being filled
      gives Batches of the rows. */
  lemma {:induction false} FillingDone<T>(batches: seq<seq<T>>, pending: seq<T>, size: nat, rows: seq<T>)
    requires Filling(batches, pending, size, rows)
    ensures Batches(rows, size) == batches + [pending]
    ensures FullBatches(rows, size) == batches
  {
    BatchesOfShape(batches, pending, size);
    FullBatchesOfShape(batches, pending, size);
  }

  lemma {:induction false} FullBatchesOfShape<T>(full: seq<seq<T>>, last: seq<T>, size: nat)
    requires size > 0
    requires forall i :: 0 <= i < |full| ==> |full[i]| == size
    requires |last| < size
    ensures FullBatches(Flatten(full) + last, size) == full
  {
    BatchesOfShape(full, last, size);
    var fb := FullBatches(Flatten(full) + last, size);
    assert fb + [(Flatten(full) + last)[|Flatten(fb)|..]] == full + [last];
    assert |fb| == |full|;
    assert fb == (fb + [last])[..|fb|];
  }
}
