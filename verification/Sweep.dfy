/** masim's sequential access loops: strided sweeps over one region with wraparound (masim.c). */
module Sweep {
  import opened Arithmetic

  const SZ_PAGE := PAGE_SIZE

  function NextOffset(offset: nat, stride: nat, sz: nat): nat {
    if offset + stride >= sz then 0 else offset + stride
  }

  /** The number of accesses after which a sweep is back at offset 0. */
  function Period(stride: nat, sz: nat): nat {
    if stride == 0 then 1 else (sz + stride - 1) / stride
  }

  /** The offset after k accesses from offset 0. */
  function OffsetAfter(k: nat, stride: nat, sz: nat): nat {
    if k == 0 then 0 else NextOffset(OffsetAfter(k - 1, stride, sz), stride, sz)
  }

  lemma PeriodBounds(stride: nat, sz: nat)
    requires sz > 0
    ensures Period(stride, sz) > 0
    ensures stride > 0 ==> (Period(stride, sz) - 1) * stride < sz <= Period(stride, sz) * stride
  {
    if stride > 0 {
      var p := (sz + stride - 1) / stride;
      assert p * stride <= sz + stride - 1 < (p + 1) * stride;
      assert (p + 1) * stride == p * stride + stride;
      assert (p - 1) * stride == p * stride - stride;
      if p == 0 { assert false; }
    }
  }

  /** Counting one up in mixed radix: the remainder wraps exactly when the quotient advances. */
  lemma DivModStep(k: nat, p: nat)
    requires p > 0
    ensures if k % p + 1 == p then (k + 1) % p == 0 && (k + 1) / p == k / p + 1
            else (k + 1) % p == k % p + 1 && (k + 1) / p == k / p
  {
    var q, r := k / p, k % p;
    assert k == q * p + r && 0 <= r < p;
    if r + 1 == p {
      assert k + 1 == (q + 1) * p;
      DivModUnique(k + 1, p, q + 1, 0);
    } else {
      DivModUnique(k + 1, p, q, r + 1);
    }
  }

  lemma DivModUnique(k: nat, p: nat, q: nat, r: nat)
    requires p > 0 && r < p && k == q * p + r
    ensures k / p == q && k % p == r
  {
    var q', r' := k / p, k % p;
    assert k == q' * p + r' && 0 <= r' < p;
    if q' < q { MulMonotone(q' + 1, q, p); }
    if q < q' { MulMonotone(q + 1, q', p); }
  }

  /** The p-th multiple of the stride is the first at or past the end of the region. */
  predicate FirstPast(p: nat, stride: nat, sz: nat) {
    p > 0 && (p - 1) * stride < sz && (if stride == 0 then p == 1 else sz <= p * stride)
  }

  lemma PeriodIsFirstPast(stride: nat, sz: nat)
    requires sz > 0
    ensures FirstPast(Period(stride, sz), stride, sz)
  {
    PeriodBounds(stride, sz);
  }

  lemma NextMultiple(r: nat, p: nat, stride: nat, sz: nat)
    requires FirstPast(p, stride, sz) && r < p
    ensures r * stride < sz
    ensures NextOffset(r * stride, stride, sz) == if r + 1 == p then 0 else (r + 1) * stride
  {
    assert (r + 1) * stride == r * stride + stride;
    MulMonotone(r, p - 1, stride);
    if r + 1 < p { MulMonotone(r + 1, p - 1, stride); }
  }

  /** Multiple number r of the stride, by addition. */
  function Multiple(r: nat, stride: nat): nat {
    if r == 0 then 0 else Multiple(r - 1, stride) + stride
  }

  lemma {:induction false} MultipleIsProduct(r: nat, stride: nat)
    ensures Multiple(r, stride) == r * stride
  {
    if r > 0 {
      MultipleIsProduct(r - 1, stride);
      assert r * stride == (r - 1) * stride + stride;
    }
  }

  lemma NextOfMultiple(r: nat, p: nat, stride: nat, sz: nat)
    requires FirstPast(p, stride, sz) && r < p
    ensures NextOffset(Multiple(r, stride), stride, sz) == if r + 1 == p then 0 else Multiple(r + 1, stride)
  {
    MultipleIsProduct(r, stride);
    MultipleIsProduct(r + 1, stride);
    NextMultiple(r, p, stride, sz);
  }

  /** The next offset after multiple number r is the next multiple, and after the last one 0. */
  predicate Follows(r: nat, p: nat, stride: nat, sz: nat) {
    NextOffset(Multiple(r, stride), stride, sz) == if r + 1 == p then 0 else Multiple(r + 1, stride)
  }

  predicate Cycle(p: nat, stride: nat, sz: nat) {
    forall r :: 0 <= r < p ==> Follows(r, p, stride, sz)
  }

  /** Counting to p over and over. */
  function Phase(k: nat, p: nat): (r: nat)
    requires p > 0
    ensures r < p
  {
    if k == 0 || Phase(k - 1, p) + 1 == p then 0 else Phase(k - 1, p) + 1
  }

  lemma {:induction false} PhaseIsRemainder(k: nat, p: nat)
    requires p > 0
    ensures Phase(k, p) == k % p
  {
    if k > 0 {
      PhaseIsRemainder(k - 1, p);
      DivModStep(k - 1, p);
    }
  }

  lemma {:induction false} OffsetIsMultiple(k: nat, p: nat, stride: nat, sz: nat)
    requires p > 0 && Cycle(p, stride, sz)
    ensures OffsetAfter(k, stride, sz) == Multiple(Phase(k, p), stride)
  {
    if k > 0 {
      OffsetIsMultiple(k - 1, p, stride, sz);
      assert Follows(Phase(k - 1, p), p, stride, sz);
    }
  }

  lemma OffsetWithPeriod(k: nat, p: nat, stride: nat, sz: nat)
    requires FirstPast(p, stride, sz)
    ensures OffsetAfter(k, stride, sz) == k % p * stride < sz
  {
    forall r | 0 <= r < p ensures Follows(r, p, stride, sz) {
      NextOfMultiple(r, p, stride, sz);
    }
    OffsetIsMultiple(k, p, stride, sz);
    PhaseIsRemainder(k, p);
    MultipleIsProduct(k % p, stride);
    NextMultiple(k % p, p, stride, sz);
  }

  /** A sweep is periodic: after k accesses it stands on multiple number k mod period of the stride. */
  lemma OffsetIsPeriodic(k: nat, stride: nat, sz: nat)
    requires sz > 0
    ensures Period(stride, sz) > 0
    ensures OffsetAfter(k, stride, sz) == k % Period(stride, sz) * stride < sz
  {
    PeriodIsFirstPast(stride, sz);
    OffsetWithPeriod(k, Period(stride, sz), stride, sz);
  }

  // ---------- do_seq_ro ----------

  datatype SeqState = SeqState(offset: nat, lastPage: nat, accessed: nat)

  function ReadStep(s: SeqState, stride: nat, sz: nat): SeqState {
    var offset := NextOffset(s.offset, stride, sz);
    if s.lastPage != PageAlign(offset) then SeqState(offset, PageAlign(offset), s.accessed + 1)
    else SeqState(offset, s.lastPage, s.accessed)
  }

  /** The loop's variables after k iterations. */
  function After(k: nat, stride: nat, sz: nat): SeqState {
    if k == 0 then SeqState(0, 0, 0) else ReadStep(After(k - 1, stride, sz), stride, sz)
  }

  lemma {:induction false} AfterTracksOffset(k: nat, stride: nat, sz: nat)
    ensures After(k, stride, sz).offset == OffsetAfter(k, stride, sz)
    ensures After(k, stride, sz).lastPage == PageAlign(OffsetAfter(k, stride, sz))
  {
    if k > 0 { AfterTracksOffset(k - 1, stride, sz); }
  }

  /** A complete call of the read loop: the offsets of the sweep up to the first page count of nrPages. */
  predicate StopsAtCount(trace: seq<nat>, stride: nat, sz: nat, nrPages: nat) {
    && (forall i :: 0 <= i < |trace| ==> trace[i] == OffsetAfter(i + 1, stride, sz))
    && After(|trace|, stride, sz).accessed == nrPages
    && forall i :: 0 <= i < |trace| ==> After(i, stride, sz).accessed < nrPages
  }

  /** The region has a second page, and the stride can reach it. */
  predicate LeavesFirstPage(stride: nat, sz: nat) {
    0 < stride < sz && sz >= 2 * SZ_PAGE
  }

  /** `do_seq_ro`: reads until `nrPages` page changes have been seen. It returns the offsets read. The
      loop does not end in every case; its guard for that is `LeavesFirstPage`. */
  method DoSeqRo(stride: nat, sz: nat, nrPages: int) returns (trace: seq<nat>)
    requires nrPages > 0 ==> LeavesFirstPage(stride, sz)
    ensures if nrPages < 0 then trace == [] else StopsAtCount(trace, stride, sz, nrPages)
  {
    trace := [];
    var offset, lastPage, accessed := 0, 0, 0;
    while accessed < nrPages
      invariant offset >= 0 && lastPage >= 0 && accessed >= 0
      invariant After(|trace|, stride, sz) == SeqState(offset, lastPage, accessed)
      invariant offset == OffsetAfter(|trace|, stride, sz) && lastPage == PageAlign(offset)
      invariant nrPages > 0 ==> offset < sz && (offset == 0 || offset >= stride)
      invariant accessed <= nrPages || accessed == 0
      invariant forall i :: 0 <= i < |trace| ==> trace[i] == OffsetAfter(i + 1, stride, sz)
      invariant forall i :: 0 <= i < |trace| ==> After(i, stride, sz).accessed < nrPages
      decreases nrPages - accessed, sz - offset
    {
      offset := offset + stride;
      if offset >= sz {
        offset := 0;
      }
      trace := trace + [offset];
      if lastPage != PageAlign(offset) {
        lastPage := PageAlign(offset);
        accessed := accessed + 1;
      }
    }
  }

  lemma {:induction false} StaysOnFirstPage(k: nat, stride: nat, sz: nat)
    requires !LeavesFirstPage(stride, sz) && sz % SZ_PAGE == 0
    ensures After(k, stride, sz).accessed == 0 && PageAlign(After(k, stride, sz).offset) == 0
    ensures After(k, stride, sz).lastPage == 0
    ensures (stride == 0 || stride >= sz) ==> After(k, stride, sz).offset == 0
  {
    if k > 0 { StaysOnFirstPage(k - 1, stride, sz); }
  }

  /** From any point of the sweep the page changes again. */
  lemma {:induction false} PageChangesAgain(k: nat, stride: nat, sz: nat) returns (m: nat)
    requires LeavesFirstPage(stride, sz)
    ensures m > k && After(m, stride, sz).accessed == After(k, stride, sz).accessed + 1
    decreases sz - After(k, stride, sz).offset
  {
    var offset := After(k, stride, sz).offset;
    AfterTracksOffset(k, stride, sz);
    AfterTracksOffset(k + 1, stride, sz);
    OffsetOrStride(k, stride, sz);
    if After(k + 1, stride, sz).accessed == After(k, stride, sz).accessed + 1 {
      m := k + 1;
    } else {
      m := PageChangesAgain(k + 1, stride, sz);
    }
  }

  lemma {:induction false} OffsetOrStride(k: nat, stride: nat, sz: nat)
    requires 0 < stride < sz
    ensures var offset := OffsetAfter(k, stride, sz); offset < sz && (offset == 0 || offset >= stride)
  {
    if k > 0 { OffsetOrStride(k - 1, stride, sz); }
  }

  lemma {:induction false} PagesAreReached(nrPages: nat, stride: nat, sz: nat) returns (k: nat)
    requires LeavesFirstPage(stride, sz)
    ensures After(k, stride, sz).accessed == nrPages
  {
    k := 0;
    if nrPages > 0 {
      var before := PagesAreReached(nrPages - 1, stride, sz);
      k := PageChangesAgain(before, stride, sz);
    }
  }

  ghost predicate Terminates(stride: nat, sz: nat, nrPages: nat) {
    exists k :: After(k, stride, sz).accessed >= nrPages
  }

  /** On whole pages, the read loop for a positive page count ends exactly if the region has at least
      two pages and the stride is positive and shorter than the region: a one-page region, a zero
      stride or one past the end spins on the first page for ever. */
  lemma TerminatesExactly(stride: nat, sz: nat, nrPages: nat)
    requires sz % SZ_PAGE == 0 && nrPages > 0
    ensures Terminates(stride, sz, nrPages) <==> LeavesFirstPage(stride, sz)
  {
    if LeavesFirstPage(stride, sz) {
      var k := PagesAreReached(nrPages, stride, sz);
    } else {
      forall k ensures After(k, stride, sz).accessed < nrPages {
        StaysOnFirstPage(k, stride, sz);
      }
    }
  }

  /** A region of one page with the smallest stride: the loop never counts a page. */
  lemma OnePageSpins(k: nat)
    ensures After(k, 1, SZ_PAGE).accessed == 0
  {
    StaysOnFirstPage(k, 1, SZ_PAGE);
  }

  /** Pages begun by the first k accesses of a sweep with period p over n whole pages. */
  function PagesBegun(k: nat, p: nat, stride: nat, n: nat): int
    requires p > 0
  {
    k / p * n + k % p * stride / SZ_PAGE
  }

  /** One more access begins a page exactly if it lands on another page. */
  lemma PagesBegunStep(k: nat, p: nat, stride: nat, n: nat)
    requires 1 <= stride <= SZ_PAGE && n >= 2 && FirstPast(p, stride, n * SZ_PAGE)
    ensures var a, b := k % p * stride, (k + 1) % p * stride;
            PagesBegun(k + 1, p, stride, n) == PagesBegun(k, p, stride, n) + if a / SZ_PAGE != b / SZ_PAGE then 1 else 0
  {
    var q, r := k / p, k % p;
    DivModStep(k, p);
    NextMultiple(r, p, stride, n * SZ_PAGE);
    assert (r + 1) * stride == r * stride + stride;
    assert (q + 1) * n == q * n + n;
    if r + 1 == p {
      assert r * stride / SZ_PAGE == n - 1;
      assert (k + 1) % p * stride == 0;
    }
  }

  lemma {:induction false} AccessedWithPeriod(k: nat, p: nat, stride: nat, n: nat)
    requires 1 <= stride <= SZ_PAGE && n >= 2 && FirstPast(p, stride, n * SZ_PAGE)
    ensures After(k, stride, n * SZ_PAGE).accessed == PagesBegun(k, p, stride, n)
  {
    if k == 0 {
      DivModUnique(0, p, 0, 0);
    } else {
      AccessedWithPeriod(k - 1, p, stride, n);
      PagesBegunStep(k - 1, p, stride, n);
      OffsetWithPeriod(k - 1, p, stride, n * SZ_PAGE);
      OffsetWithPeriod(k, p, stride, n * SZ_PAGE);
      AfterTracksOffset(k - 1, stride, n * SZ_PAGE);
    }
  }

  /** With a stride of at most a page no page is jumped over, so the page count has a closed form:
      the whole sweeps so far times the region's pages, plus the page the sweep stands on. */
  lemma AccessedInClosedForm(k: nat, stride: nat, n: nat)
    requires 1 <= stride <= SZ_PAGE && n >= 2
    ensures var p := Period(stride, n * SZ_PAGE);
            p > 0 && After(k, stride, n * SZ_PAGE).accessed == k / p * n + k % p * stride / SZ_PAGE
  {
    PeriodIsFirstPast(stride, n * SZ_PAGE);
    AccessedWithPeriod(k, Period(stride, n * SZ_PAGE), stride, n);
  }

  /** The page count reaches n exactly at the end of the first period. */
  lemma FirstPeriodCounts(k: nat, p: nat, stride: nat, n: nat)
    requires 1 <= stride <= SZ_PAGE && n >= 2 && FirstPast(p, stride, n * SZ_PAGE)
    ensures k < p ==> After(k, stride, n * SZ_PAGE).accessed < n
    ensures After(p, stride, n * SZ_PAGE).accessed == n
  {
    AccessedWithPeriod(k, p, stride, n);
    AccessedWithPeriod(p, p, stride, n);
    DivModUnique(p, p, 1, 0);
    if k < p {
      DivModUnique(k, p, 0, k);
      NextMultiple(k, p, stride, n * SZ_PAGE);
    }
  }

  /** One full sweep of whole pages with a stride of at most a page: exactly one period of reads,
      ending back at offset 0, with every page touched. */
  lemma FullSweep(stride: nat, n: nat, trace: seq<nat>)
    requires 1 <= stride <= SZ_PAGE && n >= 2 && StopsAtCount(trace, stride, n * SZ_PAGE, n)
    ensures |trace| == Period(stride, n * SZ_PAGE)
    ensures |trace| > 0 && trace[|trace| - 1] == 0
    ensures forall page :: 0 <= page < n ==> Touched(trace, page)
  {
    var p := Period(stride, n * SZ_PAGE);
    PeriodIsFirstPast(stride, n * SZ_PAGE);
    FirstPeriodCounts(|trace|, p, stride, n);
    assert |trace| == p;
    OffsetWithPeriod(p, p, stride, n * SZ_PAGE);
    DivModUnique(p, p, 1, 0);
    forall page | 0 <= page < n ensures Touched(trace, page) {
      PageIsTouched(stride, n, trace, page);
    }
  }

  predicate Touched(trace: seq<nat>, page: nat) {
    exists i :: 0 <= i < |trace| && trace[i] / SZ_PAGE == page
  }

  /** The first multiple of the stride at or past the start of a page lies on that page. */
  lemma FirstMultipleOnPage(page: nat, stride: nat) returns (r: nat)
    requires 1 <= stride <= SZ_PAGE && page > 0
    ensures r > 0 && page * SZ_PAGE <= r * stride < (page + 1) * SZ_PAGE
  {
    r := Period(stride, page * SZ_PAGE);
    PeriodBounds(stride, page * SZ_PAGE);
    assert r * stride == (r - 1) * stride + stride;
  }

  lemma PageIsTouched(stride: nat, n: nat, trace: seq<nat>, page: nat)
    requires 1 <= stride <= SZ_PAGE && page < n
    requires |trace| > 0 && FirstPast(|trace|, stride, n * SZ_PAGE)
    requires forall i :: 0 <= i < |trace| ==> trace[i] == OffsetAfter(i + 1, stride, n * SZ_PAGE)
    requires trace[|trace| - 1] == 0
    ensures Touched(trace, page)
  {
    var p := |trace|;
    if page == 0 {
      assert trace[p - 1] / SZ_PAGE == 0;
    } else {
      var r := FirstMultipleOnPage(page, stride);
      if r >= p { MulMonotone(p, r, stride); }
      DivModUnique(r, p, 0, r);
      OffsetWithPeriod(r, p, stride, n * SZ_PAGE);
      assert trace[r - 1] == r * stride;
    }
  }

  /** With a stride of one page every page is read exactly once in a sweep. */
  lemma PageStrideReadsOnce(n: nat, trace: seq<nat>)
    requires n >= 2 && StopsAtCount(trace, SZ_PAGE, n * SZ_PAGE, n)
    ensures |trace| == n
    ensures forall i, j :: 0 <= i < j < |trace| ==> trace[i] / SZ_PAGE != trace[j] / SZ_PAGE
  {
    FullSweep(SZ_PAGE, n, trace);
    assert Period(SZ_PAGE, n * SZ_PAGE) == n;
    forall i | 0 <= i < n ensures trace[i] / SZ_PAGE == if i == n - 1 then 0 else i + 1 {
      OffsetIsPeriodic(i + 1, SZ_PAGE, n * SZ_PAGE);
      if i == n - 1 { DivModUnique(n, n, 1, 0); } else { DivModUnique(i + 1, n, 0, i + 1); }
    }
  }
}
