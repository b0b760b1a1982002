/** The arithmetic of the batch loop: the offsets 0, B, 2B, ... that
    range(0, n, B) yields, the slices [i, min(i + B, n)) that each batch
    takes, how many batches there are, and where the first row that raises
    falls. */
module Batches {
  import opened Schedule

  /** The count consecutive numbers a, a + 1, ..., a + count - 1. */
  function Span(a: nat, count: nat): seq<nat>
    decreases count
  {
    if count == 0 then [] else [a] + Span(a + 1, count - 1)
  }

  /** Span(a, count) has count elements, the q-th of them a + q. */
  lemma {:induction false} SpanElements(a: nat, count: nat)
    ensures |Span(a, count)| == count
    ensures forall q :: 0 <= q < count ==> Span(a, count)[q] == a + q
    decreases count
  {
    if count > 0 {
      SpanElements(a + 1, count - 1);
    }
  }

  lemma SpanOne(a: nat)
    ensures Span(a, 1) == [a]
  {
    assert Span(a + 1, 0) == [];
  }

  lemma AppendAssociates<T>(x: seq<T>, a: seq<T>, b: seq<T>)
    ensures (x + a) + b == x + (a + b)
  {
  }

  /** Consecutive spans join. */
  lemma {:induction false} SpanSplit(a: nat, x: nat, y: nat)
    ensures Span(a, x) + Span(a + x, y) == Span(a, x + y)
    decreases x
  {
    if x > 0 {
      SpanSplit(a + 1, x - 1, y);
      AppendAssociates([a], Span(a + 1, x - 1), Span(a + x, y));
    }
  }

  /** The number of batches range(0, n, b) yields. */
  function Ceil(n: nat, b: nat): (c: nat)
    requires b > 0
    ensures c * b >= n
    ensures c == 0 || (c - 1) * b < n
  {
    var c := (n + b - 1) / b;
    assert (n + b - 1) == c * b + (n + b - 1) % b;
    c
  }

  lemma DivBetween(x: nat, b: nat, q: nat)
    requires b > 0 && q * b <= x < q * b + b
    ensures x / b == q
  {
    var r := x / b;
    assert x == r * b + x % b;
    if r < q {
      MulLeq(r + 1, q, b);
    }
    if r > q {
      MulLeq(q + 1, r, b);
    }
  }

  lemma MulLeq(x: nat, y: nat, b: nat)
    requires x <= y
    ensures x * b <= y * b
  {
  }

  /** The offset q * b starts batch number q + 1; when it is the last
      offset below n, there are q + 1 batches in all. */
  lemma OffsetArithmetic(q: nat, b: nat, n: nat)
    requires b > 0
    ensures (q * b) / b == q
    ensures (q * b + b) / b == q + 1
    ensures q * b < n <= q * b + b ==> Ceil(n, b) == q + 1
  {
    DivBetween(q * b, b, q);
    DivBetween(q * b + b, b, q + 1);
    if q * b < n <= q * b + b {
      DivBetween(n + b - 1, b, q + 1);
    }
  }

  /** The slices [i, min(i + b, n)) for i = start, start + b, ... below n:
      the rows each batch of the loop takes, as (first row, row count). */
  function Slices(n: nat, b: nat, start: nat): seq<(nat, nat)>
    requires b > 0
    decreases n - start
  {
    if start >= n then [] else [(start, Min(start + b, n) - start)] + Slices(n, b, start + b)
  }

  function Flatten(slices: seq<(nat, nat)>): seq<nat> {
    if slices == [] then [] else Span(slices[0].0, slices[0].1) + Flatten(slices[1..])
  }

  /** Taken together, the batches from offset start on cover rows start ..
      n - 1 exactly once each, in table order. */
  lemma {:induction false} SlicesCover(n: nat, b: nat, start: nat)
    requires b > 0 && start <= n
    ensures Flatten(Slices(n, b, start)) == Span(start, n - start)
    decreases n - start
  {
    if start < n {
      var e := Min(start + b, n);
      var slices := Slices(n, b, start);
      assert slices[0] == (start, e - start) && slices[1..] == Slices(n, b, start + b);
      if start + b <= n {
        SlicesCover(n, b, start + b);
      }
      SpanSplit(start, e - start, n - e);
    }
  }

  /** The slice starts at or after start, is non-empty and holds b rows
      unless it is cut off at n. */
  predicate SliceFits(n: nat, b: nat, start: nat, slice: (nat, nat)) {
    start <= slice.0 && 0 < slice.1 && slice.0 + slice.1 == Min(slice.0 + b, n)
  }

  /** Each batch starts at an offset at or after start, is non-empty and
      holds b rows unless it is cut off by the end of the table. */
  lemma {:induction false} SlicesSized(n: nat, b: nat, start: nat)
    requires b > 0
    ensures forall k :: 0 <= k < |Slices(n, b, start)| ==> SliceFits(n, b, start, Slices(n, b, start)[k])
    decreases n - start
  {
    if start < n {
      var slices := Slices(n, b, start);
      var rest := Slices(n, b, start + b);
      SlicesSized(n, b, start + b);
      forall k | 0 <= k < |slices|
        ensures SliceFits(n, b, start, slices[k])
      {
        if k == 0 {
          assert slices[0] == (start, Min(start + b, n) - start);
        } else {
          assert slices[k] == rest[k - 1];
        }
      }
    }
  }

  /** The first batch starts at start, and each later batch starts where
      the one before it ends. */
  lemma {:induction false} SlicesContiguous(n: nat, b: nat, start: nat)
    requires b > 0
    ensures var slices := Slices(n, b, start);
      && (slices != [] ==> slices[0].0 == start)
      && (forall k :: 0 < k < |slices| ==> slices[k].0 == slices[k - 1].0 + slices[k - 1].1)
    decreases n - start
  {
    if start < n {
      var slices := Slices(n, b, start);
      var rest := Slices(n, b, start + b);
      SlicesContiguous(n, b, start + b);
      if rest != [] {
        assert slices[1].0 == start + b == slices[0].0 + slices[0].1;
      }
      forall k | 1 < k < |slices|
        ensures slices[k].0 == slices[k - 1].0 + slices[k - 1].1
      {
        assert slices[k] == rest[k - 1] && slices[k - 1] == rest[k - 2];
      }
    }
  }

  /** The loop runs ceil(n / b) batches; from the offset start = q * b on,
      ceil(n / b) - q of them. */
  lemma {:induction false} SliceCount(n: nat, b: nat, q: nat, start: nat)
    requires b > 0 && start == q * b && start <= n
    ensures |Slices(n, b, start)| == Ceil(n, b) - q
    decreases n - start
  {
    CeilAt(q, b, n);
    if start < n {
      if start + b < n {
        Distribute(q, 1, b);
        SliceCount(n, b, q + 1, start + b);
      } else {
        assert Slices(n, b, start + b) == [];
      }
    }
  }

  lemma CeilAt(q: nat, b: nat, n: nat)
    requires b > 0
    ensures q * b == n ==> Ceil(n, b) == q
    ensures q * b < n <= q * b + b ==> Ceil(n, b) == q + 1
  {
    if q * b == n {
      DivBetween(n + b - 1, b, q);
    }
    OffsetArithmetic(q, b, n);
  }

  // ---------------------------------------------------------------------
  // The first row whose send raises

  /** The first index in [j, end) whose row raises, or end if none does. */
  function FirstFailure(raises: set<nat>, j: nat, end: nat): (k: nat)
    requires j <= end
    ensures j <= k <= end
    ensures k < end ==> k in raises
    decreases end - j
  {
    if j == end then end
    else if j in raises then j
    else FirstFailure(raises, j + 1, end)
  }

  /** No row before the first failure raises. */
  lemma {:induction false} NoFailureBefore(raises: set<nat>, j: nat, end: nat)
    requires j <= end
    ensures forall m :: j <= m < FirstFailure(raises, j, end) ==> m !in raises
    decreases end - j
  {
    if j < end && j !in raises {
      NoFailureBefore(raises, j + 1, end);
    }
  }

  /** Inside a window [i, e) that starts no later than the first failure of
      the whole table, the first failure is that one, or e if it lies beyond. */
  lemma FirstFailureWithin(raises: set<nat>, n: nat, i: nat, e: nat)
    requires i <= e <= n && i <= FirstFailure(raises, 0, n)
    ensures FirstFailure(raises, i, e) == Min(FirstFailure(raises, 0, n), e)
  {
    NoFailureBefore(raises, 0, n);
    NoFailureBefore(raises, i, e);
  }

  lemma Distribute(x: int, y: int, d: int)
    ensures (x + y) * d == x * d + y * d
  {
  }

  /** The number of batches announced when the first failure is at k (k = n
      when no send raises). */
  function BatchesStarted(n: nat, b: nat, k: nat): nat
    requires b > 0
  {
    if k < n then k / b + 1 else Ceil(n, b)
  }

  /** An offset at or past (q + 1) * b lies in batch q + 2 or later. */
  lemma DivPast(x: nat, b: nat, q: nat)
    requires b > 0 && q * b + b <= x
    ensures x / b >= q + 1
  {
    var r := x / b;
    assert x == r * b + x % b;
    if r < q + 1 {
      MulLeq(r + 1, q + 1, b);
      Distribute(r, 1, b);
      Distribute(q, 1, b);
    }
  }

  /** A table longer than q * b has at least q + 1 batches. */
  lemma CeilPast(n: nat, b: nat, q: nat)
    requires b > 0 && q * b < n
    ensures Ceil(n, b) >= q + 1
  {
    var c := Ceil(n, b);
    if c < q + 1 {
      MulLeq(c, q, b);
    }
  }

  /** The arithmetic of one batch offset i = q * b: it is announced as
      batch q + 1, the next offset is (q + 1) * b, and when the first failure
      or the end of the table falls in [i, i + b), q + 1 batches were started. */
  lemma BatchArithmetic(q: nat, b: nat, i: nat, n: nat, k: nat)
    requires b > 0 && i == q * b && i <= k <= n && i < n
    ensures i / b == q
    ensures i + b == (q + 1) * b
    ensures k < n && k < i + b ==> BatchesStarted(n, b, k) == q + 1
    ensures k == n && n <= i + b ==> BatchesStarted(n, b, k) == q + 1
    ensures BatchesStarted(n, b, k) >= q + 1
  {
    OffsetArithmetic(q, b, n);
    Distribute(q, 1, b);
    if k < n {
      if k < i + b {
        DivBetween(k, b, q);
      } else {
        DivPast(k, b, q);
      }
    } else {
      CeilPast(n, b, q);
    }
  }

  /** The batches the loop starts from offset i on when the first failure
      is at k: this one, and the next ones unless the failure falls in this
      batch or this batch reaches the end of the table. */
  function Started(n: nat, b: nat, k: nat, i: nat): nat
    requires b > 0
    decreases n - i
  {
    if i >= n then 0
    else if k < i + b || n <= i + b then 1
    else 1 + Started(n, b, k, i + b)
  }

  /** Counting the batches one by one from offset q * b agrees with the
      closed form: all the batches up to the one holding the first failure,
      or ceil(n / b) when no row fails. */
  lemma {:induction false} StartedClosedForm(n: nat, b: nat, k: nat, q: nat, i: nat)
    requires b > 0 && i == q * b && i < n && i <= k <= n
    ensures q + Started(n, b, k, i) == BatchesStarted(n, b, k)
    decreases n - i
  {
    BatchArithmetic(q, b, i, n, k);
    if !(k < i + b || n <= i + b) {
      StartedClosedForm(n, b, k, q + 1, i + b);
    }
  }

  /** The offset one step on falls in the next batch. */
  lemma DivStep(i: nat, b: nat)
    requires b > 0
    ensures (i + b) / b == i / b + 1
  {
    var q := i / b;
    assert i == q * b + i % b;
    Distribute(q, 1, b);
    DivBetween(i + b, b, q + 1);
  }

  /** An empty table has no batches. */
  lemma CeilZero(b: nat)
    requires b > 0
    ensures Ceil(0, b) == 0
  {
    DivBetween(b - 1, b, 0);
  }

  /** The batch after the one at offset i is announced with the next
      number. */
  lemma BatchNumberNext(i: nat, b: nat)
    requires b > 0
    ensures BatchNumber(i + b, b) == BatchNumber(i, b) + 1
  {
    assert i + b - b == i;
  }

  /** The batch at offset i is announced as batch i // b + 1. */
  lemma {:induction false} BatchNumberQuotient(i: nat, b: nat)
    requires b > 0
    ensures BatchNumber(i, b) == i / b + 1
    decreases i
  {
    if i < b {
      DivBetween(i, b, 0);
    } else {
      BatchNumberQuotient(i - b, b);
      DivStep(i - b, b);
    }
  }
}
