/** masim's write and read-write sweeps, which keep their position between calls (masim.c). */
module AccessLoops {
  import opened Arithmetic
  import opened Sweep

  newtype Byte = x: int | 0 <= x < 256

  function Increment(b: Byte): Byte {
    if b == 255 then 0 else b + 1
  }

  /** How many of the `count` accesses after the first `from` land on offset `at`. */
  function Visits(from: nat, count: nat, stride: nat, sz: nat, at: nat): nat {
    if count == 0 then 0
    else Visits(from, count - 1, stride, sz, at) + if OffsetAfter(from + count, stride, sz) == at then 1 else 0
  }

  function Bumped(b: Byte, times: nat): (r: Byte)
    ensures r as int == (b as int + times) % 256
  {
    ((b as int + times) % 256) as Byte
  }

  /** A region's bytes after a batch of writes. */
  function Written(data: seq<Byte>, from: nat, count: nat, stride: nat): (r: seq<Byte>)
    ensures |r| == |data|
  {
    seq(|data|, at requires 0 <= at < |data| => if Visits(from, count, stride, |data|, at) > 0 then 1 else data[at])
  }

  /** A region's bytes after a batch of read-writes. */
  function Rewritten(data: seq<Byte>, from: nat, count: nat, stride: nat): (r: seq<Byte>)
    ensures |r| == |data|
  {
    seq(|data|, at requires 0 <= at < |data| => Bumped(data[at], Visits(from, count, stride, |data|, at)))
  }

  lemma OffsetInside(k: nat, stride: nat, sz: nat)
    requires sz > 0
    ensures OffsetAfter(k, stride, sz) < sz
  {
  }

  lemma BumpedStep(b: Byte, times: nat)
    ensures Bumped(b, times + 1) == Increment(Bumped(b, times))
  {
  }

  lemma RewrittenStep(data: seq<Byte>, from: nat, count: nat, stride: nat)
    requires |data| > 0
    ensures var at := OffsetAfter(from + count + 1, stride, |data|);
            var r := Rewritten(data, from, count, stride);
            at < |data| && Rewritten(data, from, count + 1, stride) == r[at := Increment(r[at])]
  {
    var at := OffsetAfter(from + count + 1, stride, |data|);
    OffsetInside(from + count + 1, stride, |data|);
    BumpedStep(data[at], Visits(from, count, stride, |data|, at));
  }

  function Batch(n: int): nat {
    if n < 0 then 0 else n
  }

  /** One access pattern and its region. `total` counts its accesses since parsing. */
  class Access {
    const stride: nat
    const data: array<Byte>
    var lastOffset: nat
    ghost var total: nat

    ghost predicate Valid()
      reads this
    {
      data.Length > 0 && lastOffset == OffsetAfter(total, stride, data.Length)
    }

    constructor (stride: nat, data: array<Byte>)
      requires data.Length > 0
      ensures Valid() && this.stride == stride && this.data == data && total == 0
    {
      this.stride, this.data := stride, data;
      lastOffset, total := 0, 0;
    }

    method DoSeqWo(batch: int)
      requires Valid()
      modifies this, data
      ensures Valid() && total == old(total) + Batch(batch)
      ensures data[..] == Written(old(data[..]), old(total), Batch(batch), stride)
      ensures forall at :: 0 <= at < data.Length ==>
                data[at] == if Visits(old(total), Batch(batch), stride, data.Length, at) > 0 then 1 else old(data[at])
    {
      var offset, i := lastOffset, 0;
      ghost var was := data[..];
      while i < batch
        invariant 0 <= i <= Batch(batch)
        invariant offset == OffsetAfter(total + i, stride, data.Length)
        invariant data[..] == Written(was, total, i, stride)
        modifies data
      {
        OffsetInside(total + i + 1, stride, data.Length);
        offset := offset + stride;
        if offset >= data.Length {
          offset := 0;
        }
        data[offset] := 1;
        i := i + 1;
      }
      lastOffset, total := offset, total + Batch(batch);
      assert forall at :: 0 <= at < data.Length ==> data[at] == data[..][at];
    }

    method DoSeqRw(batch: int)
      requires Valid()
      modifies this, data
      ensures Valid() && total == old(total) + Batch(batch)
      ensures data[..] == Rewritten(old(data[..]), old(total), Batch(batch), stride)
      ensures forall at :: 0 <= at < data.Length ==>
                data[at] as int == (old(data[at]) as int + Visits(old(total), Batch(batch), stride, data.Length, at)) % 256
    {
      var offset, i := lastOffset, 0;
      ghost var was := data[..];
      while i < batch
        invariant 0 <= i <= Batch(batch)
        invariant offset == OffsetAfter(total + i, stride, data.Length)
        invariant data[..] == Rewritten(was, total, i, stride)
        modifies data
      {
        OffsetInside(total + i + 1, stride, data.Length);
        offset := offset + stride;
        if offset >= data.Length {
          offset := 0;
        }
        RewrittenStep(was, total, i, stride);
        data[offset] := Increment(data[offset]);
        i := i + 1;
      }
      lastOffset, total := offset, total + Batch(batch);
      assert forall at :: 0 <= at < data.Length ==> data[at] == data[..][at];
    }
  }

  // ---------- properties ----------

  lemma {:induction false} VisitsSplit(from: nat, a: nat, b: nat, stride: nat, sz: nat, at: nat)
    ensures Visits(from, a + b, stride, sz, at) == Visits(from, a, stride, sz, at) + Visits(from + a, b, stride, sz, at)
  {
    if b > 0 {
      VisitsSplit(from, a, b - 1, stride, sz, at);
      assert from + (a + b) == from + a + b;
    }
  }

  /** Splitting a batch across two calls changes neither the bytes nor, by `Valid`, the position. */
  lemma SplitBatch(data: seq<Byte>, from: nat, a: nat, b: nat, stride: nat)
    ensures Written(Written(data, from, a, stride), from + a, b, stride) == Written(data, from, a + b, stride)
    ensures Rewritten(Rewritten(data, from, a, stride), from + a, b, stride) == Rewritten(data, from, a + b, stride)
  {
    var w, u := Written(data, from, a, stride), Rewritten(data, from, a, stride);
    var w', u' := Written(w, from + a, b, stride), Rewritten(u, from + a, b, stride);
    forall at | 0 <= at < |data| ensures w'[at] == Written(data, from, a + b, stride)[at] {
      VisitsSplit(from, a, b, stride, |data|, at);
    }
    forall at | 0 <= at < |data| ensures u'[at] == Rewritten(data, from, a + b, stride)[at] {
      VisitsSplit(from, a, b, stride, |data|, at);
      BumpedTwice(data[at], Visits(from, a, stride, |data|, at), Visits(from + a, b, stride, |data|, at));
    }
  }

  lemma BumpedTwice(b: Byte, m: nat, n: nat)
    ensures Bumped(Bumped(b, m), n) == Bumped(b, m + n)
  {
  }

  /** The position depends only on how many accesses there were: after k of them it is multiple number
      k mod ceil(sz/stride) of the stride, inside the region. */
  lemma PositionInClosedForm(k: nat, stride: nat, sz: nat)
    requires stride > 0 && sz > 0
    ensures var p := (sz + stride - 1) / stride;
            p > 0 && OffsetAfter(k, stride, sz) == k % p * stride < sz
  {
    OffsetIsPeriodic(k, stride, sz);
  }

  predicate IsMultiple(at: nat, stride: nat, sz: nat) {
    exists r: nat :: r < Period(stride, sz) && r * stride == at
  }

  lemma MultipleIsUnique(r: nat, s: nat, stride: nat)
    requires stride > 0 && r * stride == s * stride
    ensures r == s
  {
    assert (r + 1) * stride == r * stride + stride;
    assert (s + 1) * stride == s * stride + stride;
    if r < s { MulMonotone(r + 1, s, stride); }
    if s < r { MulMonotone(s + 1, r, stride); }
  }

  /** Inside the first period each access lands on a new multiple of the stride. */
  lemma {:induction false} FirstPeriodVisits(k: nat, r: nat, p: nat, stride: nat, sz: nat)
    requires stride > 0 && FirstPast(p, stride, sz) && r < p && k < p
    ensures Visits(0, k, stride, sz, r * stride) == if 1 <= r <= k then 1 else 0
  {
    if k > 0 {
      FirstPeriodVisits(k - 1, r, p, stride, sz);
      OffsetWithPeriod(k, p, stride, sz);
      DivModUnique(k, p, 0, k);
      if k * stride == r * stride { MultipleIsUnique(k, r, stride); }
    }
  }

  lemma {:induction false} NoVisitsElsewhere(from: nat, count: nat, stride: nat, sz: nat, at: nat)
    requires sz > 0 && !IsMultiple(at, stride, sz)
    ensures Visits(from, count, stride, sz, at) == 0
  {
    if count > 0 {
      NoVisitsElsewhere(from, count - 1, stride, sz, at);
      OffsetIsPeriodic(from + count, stride, sz);
      PeriodIsFirstPast(stride, sz);
      var r := (from + count) % Period(stride, sz);
      if r * stride == at { assert false; }
    }
  }

  /** A window of one period slides without changing what it visits. */
  lemma {:induction false} PeriodSlides(from: nat, p: nat, stride: nat, sz: nat, at: nat)
    requires FirstPast(p, stride, sz)
    ensures Visits(from, p, stride, sz, at) == Visits(0, p, stride, sz, at)
  {
    if from > 0 {
      var f := from - 1;
      PeriodSlides(f, p, stride, sz, at);
      VisitsSplit(f, 1, p, stride, sz, at);
      VisitsSplit(f, p, 1, stride, sz, at);
      OffsetWithPeriod(f + 1, p, stride, sz);
      OffsetWithPeriod(f + p + 1, p, stride, sz);
      SameRemainder(f + 1, p);
      assert Visits(f, 1, stride, sz, at) == Visits(f + p, 1, stride, sz, at) by {
        assert Visits(f, 0, stride, sz, at) == Visits(f + p, 0, stride, sz, at);
      }
    }
  }

  lemma SameRemainder(k: nat, p: nat)
    requires p > 0
    ensures (k + p) % p == k % p
  {
    assert k + p == (k / p + 1) * p + k % p;
    DivModUnique(k + p, p, k / p + 1, k % p);
  }

  /** Wherever a sweep stands, its next ceil(sz/stride) accesses visit every multiple of the stride
      inside the region exactly once and nothing else. */
  lemma OnePeriodVisitsEachOnce(from: nat, stride: nat, sz: nat, at: nat)
    requires stride > 0 && sz > 0
    ensures Visits(from, Period(stride, sz), stride, sz, at) == if IsMultiple(at, stride, sz) then 1 else 0
  {
    var p := Period(stride, sz);
    PeriodIsFirstPast(stride, sz);
    if IsMultiple(at, stride, sz) {
      var r: nat :| r < p && r * stride == at;
      PeriodSlides(from, p, stride, sz, at);
      FirstPeriodVisits(p - 1, r, p, stride, sz);
      OffsetWithPeriod(p, p, stride, sz);
      DivModUnique(p, p, 1, 0);
      if r > 0 { MulMonotone(1, r, stride); }
    } else {
      NoVisitsElsewhere(from, p, stride, sz, at);
    }
  }
}
