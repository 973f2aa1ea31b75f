/**
 * The pending-operation buffer of the migration scripts: operations are
 * pushed one by one, written to the database with `bulkWrite` whenever the
 * buffer reaches the batch size, and once more at the end of the run.
 */
module Bulk {

  class BulkWriter<T> {
    const batchSize: nat
    /** Operations pushed and not yet written. */
    var pending: seq<T>
    /** Operations already handed to `bulkWrite`, in order. */
    var written: seq<T>
    /** Number of `bulkWrite` calls made. */
    var writes: nat

    /** The buffer is never full between pushes, and every write so far took a full batch. */
    ghost predicate Valid()
      reads this
    {
      batchSize > 0 && |pending| < batchSize && |written| == batchSize * writes
    }

    /** Every operation pushed so far, written or not. */
    function Pushed(): seq<T>
      reads this
    {
      written + pending
    }

    constructor (size: nat)
      requires size > 0
      ensures Valid() && batchSize == size
      ensures pending == [] && written == [] && writes == 0
    {
      batchSize := size;
      pending := [];
      written := [];
      writes := 0;
    }

    /** `flushBulk`: an empty buffer makes no call; otherwise the whole buffer is
        written in one call and emptied. */
    method Flush()
      modifies this
      ensures pending == [] && written == old(written + pending)
      ensures writes == if old(pending) == [] then old(writes) else old(writes) + 1
    {
      if pending != [] {
        written := written + pending;
        pending := [];
        writes := writes + 1;
      }
    }

    /** `operations.push(op)` followed by a flush once the buffer holds a full batch. */
    method Push(op: T)
      requires Valid()
      modifies this
      ensures Valid()
      ensures Pushed() == old(Pushed()) + [op]
      ensures |old(pending)| + 1 == batchSize ==> pending == [] && writes == old(writes) + 1
      ensures |old(pending)| + 1 < batchSize ==> pending == old(pending) + [op] && writes == old(writes)
    {
      pending := pending + [op];
      if |pending| >= batchSize {
        Flush();
        assert batchSize * writes == batchSize * old(writes) + batchSize;
      }
    }

    /** The flush at the end of a run: whatever is pending is written, so everything pushed
        has been written, in one call per started batch. */
    method Close()
      requires Valid()
      modifies this
      ensures pending == [] && written == old(Pushed())
      ensures writes == (|written| + batchSize - 1) / batchSize
    {
      var w, p := writes, |pending|;
      Flush();
      if p == 0 {
        DivUnique(batchSize * w + batchSize - 1, batchSize, w);
      } else {
        assert batchSize * (w + 1) == batchSize * w + batchSize;
        DivUnique(batchSize * w + p + batchSize - 1, batchSize, w + 1);
      }
    }
  }

  /** `x / b` is the one `q` with `b * q <= x < b * q + b`. */
  lemma DivUnique(x: int, b: int, q: int)
    requires b > 0 && b * q <= x < b * q + b
    ensures x / b == q
  {
    var d, r := x / b, x % b;
    assert x == b * d + r && 0 <= r < b;
    MulGap(b, d, q);
    MulGap(b, q, d);
  }

  lemma MulGap(b: nat, d: int, q: int)
    ensures d > q ==> b * d >= b * q + b
  {
    if d > q {
      MulAtLeast(b, d - q);
      assert b * d == b * q + b * (d - q);
    }
  }

  lemma {:induction false} MulAtLeast(b: nat, k: nat)
    requires k >= 1
    ensures b * k >= b
    decreases k
  {
    if k > 1 {
      MulAtLeast(b, k - 1);
      assert b * k == b * (k - 1) + b;
    }
  }
}
