/** Counting sampled addresses (addr_space_util.cpp). */
module AddrSpaceUtil {
  import opened Sorting

  datatype AddrEntry = AddrEntry(time: real, addr: nat)

  datatype AddrCountEntry = AddrCountEntry(time: real, addr: nat, count: nat)

  /** The address passes the filter: inside the closed range and not zero. */
  predicate Kept(addr: nat, minVal: nat, maxVal: nat) {
    minVal <= addr <= maxVal && addr != 0
  }

  /** The number of kept events whose address is in [lo, hi): the histogram this file computes. */
  function CountIn(events: seq<AddrEntry>, minVal: nat, maxVal: nat, lo: int, hi: int): nat {
    if events == [] then 0
    else
      var last := events[|events| - 1];
      CountIn(events[..|events| - 1], minVal, maxVal, lo, hi)
      + if Kept(last.addr, minVal, maxVal) && lo <= last.addr < hi then 1 else 0
  }

  lemma {:induction false} CountInRemove(events: seq<AddrEntry>, k: nat, minVal: nat, maxVal: nat, lo: int, hi: int)
    requires k < |events|
    ensures CountIn(events, minVal, maxVal, lo, hi)
            == CountIn(events[..k] + events[k + 1..], minVal, maxVal, lo, hi) + CountIn([events[k]], minVal, maxVal, lo, hi)
  {
    var last := |events| - 1;
    assert [events[k]][..0] == [];
    if k == last {
      assert events[..k] + events[k + 1..] == events[..k];
    } else {
      var rest := events[..k] + events[k + 1..];
      CountInRemove(events[..last], k, minVal, maxVal, lo, hi);
      assert rest[..|rest| - 1] == events[..last][..k] + events[..last][k + 1..];
    }
  }

  /** The histogram does not depend on the order of the events. */
  lemma {:induction false} CountInPermutation(a: seq<AddrEntry>, b: seq<AddrEntry>, minVal: nat, maxVal: nat, lo: int, hi: int)
    requires multiset(a) == multiset(b)
    ensures CountIn(a, minVal, maxVal, lo, hi) == CountIn(b, minVal, maxVal, lo, hi)
    decreases |a|
  {
    if a == [] {
      assert |multiset(b)| == 0;
    } else {
      var x := a[|a| - 1];
      var k := TakeFromPermutation(a, b);
      CountInPermutation(a[..|a| - 1], b[..k] + b[k + 1..], minVal, maxVal, lo, hi);
      CountInRemove(b, k, minVal, maxVal, lo, hi);
      assert [x][..0] == [];
    }
  }

  lemma {:induction false} CountInSplit(events: seq<AddrEntry>, minVal: nat, maxVal: nat, lo: int, mid: int, hi: int)
    requires lo <= mid <= hi
    ensures CountIn(events, minVal, maxVal, lo, hi)
            == CountIn(events, minVal, maxVal, lo, mid) + CountIn(events, minVal, maxVal, mid, hi)
  {
    if events != [] {
      CountInSplit(events[..|events| - 1], minVal, maxVal, lo, mid, hi);
    }
  }

  lemma {:induction false} CountInNone(events: seq<AddrEntry>, minVal: nat, maxVal: nat, lo: int, hi: int)
    requires forall i :: 0 <= i < |events| ==> !(Kept(events[i].addr, minVal, maxVal) && lo <= events[i].addr < hi)
    ensures CountIn(events, minVal, maxVal, lo, hi) == 0
  {
    if events != [] {
      CountInNone(events[..|events| - 1], minVal, maxVal, lo, hi);
    }
  }

  lemma {:induction false} CountInSome(events: seq<AddrEntry>, minVal: nat, maxVal: nat, lo: int, hi: int, i: nat)
    requires i < |events| && Kept(events[i].addr, minVal, maxVal) && lo <= events[i].addr < hi
    ensures CountIn(events, minVal, maxVal, lo, hi) > 0
  {
    if i < |events| - 1 {
      CountInSome(events[..|events| - 1], minVal, maxVal, lo, hi, i);
    }
  }

  /** The batch positions whose address is in [minVal, maxVal], not zero, and in [lo, hi). */
  ghost function PositionsIn(events: seq<AddrEntry>, minVal: nat, maxVal: nat, lo: int, hi: int): set<nat> {
    set i: nat | i < |events| && minVal <= events[i].addr <= maxVal && events[i].addr != 0 && lo <= events[i].addr < hi
  }

  lemma PositionsStep(events: seq<AddrEntry>, minVal: nat, maxVal: nat, lo: int, hi: int)
    requires events != []
    ensures var last := |events| - 1;
            var before := PositionsIn(events[..last], minVal, maxVal, lo, hi);
            && last !in before
            && PositionsIn(events, minVal, maxVal, lo, hi)
               == if last in PositionsIn(events, minVal, maxVal, lo, hi) then before + {last} else before
  {
  }

  lemma {:induction false} CountIsPositions(events: seq<AddrEntry>, minVal: nat, maxVal: nat, lo: int, hi: int)
    ensures CountIn(events, minVal, maxVal, lo, hi) == |PositionsIn(events, minVal, maxVal, lo, hi)|
  {
    if events == [] {
      assert PositionsIn(events, minVal, maxVal, lo, hi) == {};
    } else {
      CountIsPositions(events[..|events| - 1], minVal, maxVal, lo, hi);
      PositionsStep(events, minVal, maxVal, lo, hi);
    }
  }

  ghost predicate NoneKept(events: seq<AddrEntry>, minVal: nat, maxVal: nat) {
    forall i :: 0 <= i < |events| ==> !Kept(events[i].addr, minVal, maxVal)
  }

  predicate HasRow(table: seq<AddrCountEntry>, addr: nat) {
    exists k :: 0 <= k < |table| && table[k].addr == addr
  }

  /** The row is a kept page below `bound`, counted in full and stamped with one of its events. */
  predicate RowOk(events: seq<AddrEntry>, minVal: nat, maxVal: nat, row: AddrCountEntry, bound: int) {
    && Kept(row.addr, minVal, maxVal) && row.addr < bound
    && row.count == CountIn(events, minVal, maxVal, row.addr, row.addr + 1)
    && AddrEntry(row.time, row.addr) in events
  }

  ghost predicate Ascending(table: seq<AddrCountEntry>) {
    forall i, j :: 0 <= i < j < |table| ==> table[i].addr < table[j].addr
  }

  /** The run-length table of the kept events up to, but not including, address `bound`: strictly
      ascending, each page with its number of events, no kept page missing. */
  ghost predicate TableBelow(events: seq<AddrEntry>, minVal: nat, maxVal: nat, table: seq<AddrCountEntry>, bound: int) {
    && Ascending(table)
    && (forall i :: 0 <= i < |table| ==> RowOk(events, minVal, maxVal, table[i], bound))
    && (forall e :: e in events && Kept(e.addr, minVal, maxVal) && e.addr < bound ==> HasRow(table, e.addr))
  }

  /** What `sort_count_unique_process_mod` leaves in `scup`: the run-length table of the kept events,
      or the single entry for page 0 if none is kept. */
  ghost predicate CountsPages(events: seq<AddrEntry>, minVal: nat, maxVal: nat, scup: seq<AddrCountEntry>) {
    if NoneKept(events, minVal, maxVal) then scup == [AddrCountEntry(0.0, 0, 1)]
    else |scup| > 0 && TableBelow(events, minVal, maxVal, scup, maxVal + 1)
  }

  /** The scan's state over a sorted prefix. */
  ghost predicate Scanned(prefix: seq<AddrEntry>, minVal: nat, maxVal: nat, scup: seq<AddrCountEntry>,
                          lastAddr: nat, lastTime: real, cnt: nat) {
    if lastAddr == 0 then NoneKept(prefix, minVal, maxVal) && scup == [] && cnt == 1 && lastTime == 0.0
    else
      && RowOk(prefix, minVal, maxVal, AddrCountEntry(lastTime, lastAddr, cnt), lastAddr + 1)
      && (forall e :: e in prefix && Kept(e.addr, minVal, maxVal) ==> e.addr <= lastAddr)
      && TableBelow(prefix, minVal, maxVal, scup, lastAddr)
  }

  /** An event at or above a row's bound, or a skipped one, leaves the row right. */
  lemma RowExtends(prefix: seq<AddrEntry>, e: AddrEntry, minVal: nat, maxVal: nat, row: AddrCountEntry, bound: int)
    requires RowOk(prefix, minVal, maxVal, row, bound)
    requires Kept(e.addr, minVal, maxVal) ==> bound <= e.addr
    ensures RowOk(prefix + [e], minVal, maxVal, row, bound)
  {
    assert (prefix + [e])[..|prefix|] == prefix;
  }

  lemma TableExtends(prefix: seq<AddrEntry>, e: AddrEntry, minVal: nat, maxVal: nat, table: seq<AddrCountEntry>, bound: int)
    requires TableBelow(prefix, minVal, maxVal, table, bound)
    requires Kept(e.addr, minVal, maxVal) ==> bound <= e.addr
    ensures TableBelow(prefix + [e], minVal, maxVal, table, bound)
  {
    forall i | 0 <= i < |table| ensures RowOk(prefix + [e], minVal, maxVal, table[i], bound) {
      RowExtends(prefix, e, minVal, maxVal, table[i], bound);
    }
  }

  /** A new page, or the end, closes the row of the last one. */
  lemma TableCloses(prefix: seq<AddrEntry>, minVal: nat, maxVal: nat, scup: seq<AddrCountEntry>,
                    lastAddr: nat, lastTime: real, cnt: nat, bound: int)
    requires lastAddr != 0 && Scanned(prefix, minVal, maxVal, scup, lastAddr, lastTime, cnt)
    requires lastAddr < bound
    ensures TableBelow(prefix, minVal, maxVal, scup + [AddrCountEntry(lastTime, lastAddr, cnt)], bound)
  {
    var table := scup + [AddrCountEntry(lastTime, lastAddr, cnt)];
    forall i | 0 <= i < |table| ensures RowOk(prefix, minVal, maxVal, table[i], bound) {
      if i < |scup| { assert RowOk(prefix, minVal, maxVal, scup[i], lastAddr); }
    }
    assert Ascending(table) by {
      forall i | 0 <= i < |scup| ensures table[i].addr < lastAddr {
        assert RowOk(prefix, minVal, maxVal, scup[i], lastAddr);
      }
    }
    forall e | e in prefix && Kept(e.addr, minVal, maxVal) && e.addr < bound ensures HasRow(table, e.addr) {
      if e.addr == lastAddr {
        assert table[|scup|].addr == e.addr;
      } else {
        assert HasRow(scup, e.addr);
        var k :| 0 <= k < |scup| && scup[k].addr == e.addr;
        assert table[k].addr == e.addr;
      }
    }
  }

  lemma ScanSkips(prefix: seq<AddrEntry>, e: AddrEntry, minVal: nat, maxVal: nat, scup: seq<AddrCountEntry>,
                  lastAddr: nat, lastTime: real, cnt: nat)
    requires Scanned(prefix, minVal, maxVal, scup, lastAddr, lastTime, cnt)
    requires !Kept(e.addr, minVal, maxVal)
    ensures Scanned(prefix + [e], minVal, maxVal, scup, lastAddr, lastTime, cnt)
  {
    if lastAddr != 0 {
      RowExtends(prefix, e, minVal, maxVal, AddrCountEntry(lastTime, lastAddr, cnt), lastAddr + 1);
      TableExtends(prefix, e, minVal, maxVal, scup, lastAddr);
    }
  }

  /** The first event of a page opens its row with count one. */
  lemma RowOpens(prefix: seq<AddrEntry>, e: AddrEntry, minVal: nat, maxVal: nat)
    requires Kept(e.addr, minVal, maxVal)
    requires forall p :: p in prefix && Kept(p.addr, minVal, maxVal) ==> p.addr < e.addr
    ensures RowOk(prefix + [e], minVal, maxVal, AddrCountEntry(e.time, e.addr, 1), e.addr + 1)
  {
    assert (prefix + [e])[..|prefix|] == prefix;
    CountInNone(prefix, minVal, maxVal, e.addr, e.addr + 1);
  }

  lemma ScanCounts(prefix: seq<AddrEntry>, e: AddrEntry, minVal: nat, maxVal: nat, scup: seq<AddrCountEntry>,
                   lastAddr: nat, lastTime: real, cnt: nat)
    requires lastAddr != 0 && Scanned(prefix, minVal, maxVal, scup, lastAddr, lastTime, cnt)
    requires e.addr == lastAddr
    ensures Scanned(prefix + [e], minVal, maxVal, scup, lastAddr, lastTime, cnt + 1)
  {
    assert (prefix + [e])[..|prefix|] == prefix;
    TableExtends(prefix, e, minVal, maxVal, scup, lastAddr);
  }

  lemma ScanMoves(prefix: seq<AddrEntry>, e: AddrEntry, minVal: nat, maxVal: nat, scup: seq<AddrCountEntry>,
                  lastAddr: nat, lastTime: real, cnt: nat)
    requires lastAddr != 0 && Scanned(prefix, minVal, maxVal, scup, lastAddr, lastTime, cnt)
    requires Kept(e.addr, minVal, maxVal) && lastAddr < e.addr
    ensures Scanned(prefix + [e], minVal, maxVal, scup + [AddrCountEntry(lastTime, lastAddr, cnt)], e.addr, e.time, 1)
  {
    var table := scup + [AddrCountEntry(lastTime, lastAddr, cnt)];
    TableCloses(prefix, minVal, maxVal, scup, lastAddr, lastTime, cnt, e.addr);
    TableExtends(prefix, e, minVal, maxVal, table, e.addr);
    RowOpens(prefix, e, minVal, maxVal);
  }

  lemma ScanStarts(prefix: seq<AddrEntry>, e: AddrEntry, minVal: nat, maxVal: nat)
    requires NoneKept(prefix, minVal, maxVal) && Kept(e.addr, minVal, maxVal)
    ensures Scanned(prefix + [e], minVal, maxVal, [], e.addr, e.time, 1)
  {
    RowOpens(prefix, e, minVal, maxVal);
  }

  lemma CountsPagesPermutation(a: seq<AddrEntry>, b: seq<AddrEntry>, minVal: nat, maxVal: nat, scup: seq<AddrCountEntry>)
    requires multiset(a) == multiset(b) && CountsPages(a, minVal, maxVal, scup)
    ensures CountsPages(b, minVal, maxVal, scup)
  {
    forall e ensures e in a <==> e in b { assert e in multiset(a) <==> e in multiset(b); }
    assert NoneKept(a, minVal, maxVal) <==> NoneKept(b, minVal, maxVal) by {
      if !NoneKept(a, minVal, maxVal) {
        var i :| 0 <= i < |a| && Kept(a[i].addr, minVal, maxVal);
        assert a[i] in b;
      }
      if !NoneKept(b, minVal, maxVal) {
        var i :| 0 <= i < |b| && Kept(b[i].addr, minVal, maxVal);
        assert b[i] in a;
      }
    }
    if !NoneKept(a, minVal, maxVal) {
      forall i | 0 <= i < |scup| ensures RowOk(b, minVal, maxVal, scup[i], maxVal + 1) {
        assert RowOk(a, minVal, maxVal, scup[i], maxVal + 1);
        CountInPermutation(a, b, minVal, maxVal, scup[i].addr, scup[i].addr + 1);
      }
    }
  }

  lemma LastIsNotAbove(sorted: seq<AddrEntry>, i: nat, minVal: nat, maxVal: nat, scup: seq<AddrCountEntry>,
                       lastAddr: nat, lastTime: real, cnt: nat)
    requires i < |sorted| && SortedBy(sorted, (e: AddrEntry) => e.addr)
    requires Scanned(sorted[..i], minVal, maxVal, scup, lastAddr, lastTime, cnt)
    ensures lastAddr <= sorted[i].addr
  {
    if lastAddr != 0 {
      var k :| 0 <= k < i && sorted[k] == AddrEntry(lastTime, lastAddr);
      var key := (e: AddrEntry) => e.addr;
      assert key(sorted[k]) <= key(sorted[i]);
    }
  }

  /** The row pushed after the loop completes the table of the whole list. */
  lemma TableFinishes(sorted: seq<AddrEntry>, pageAddrs: seq<AddrEntry>, minVal: nat, maxVal: nat,
                      scup: seq<AddrCountEntry>, lastAddr: nat, lastTime: real, cnt: nat)
    requires multiset(sorted) == multiset(pageAddrs)
    requires Scanned(sorted, minVal, maxVal, scup, lastAddr, lastTime, cnt)
    ensures CountsPages(pageAddrs, minVal, maxVal, scup + [AddrCountEntry(lastTime, lastAddr, cnt)])
  {
    if lastAddr != 0 { TableCloses(sorted, minVal, maxVal, scup, lastAddr, lastTime, cnt, maxVal + 1); }
    CountsPagesPermutation(sorted, pageAddrs, minVal, maxVal, scup + [AddrCountEntry(lastTime, lastAddr, cnt)]);
  }

  /** The table in plain terms: unless no address passes, row by row an ascending list of exactly the
      addresses in the range other than zero, each with the number of its positions in the batch. */
  lemma TableIsHistogram(events: seq<AddrEntry>, minVal: nat, maxVal: nat, scup: seq<AddrCountEntry>)
    requires CountsPages(events, minVal, maxVal, scup)
    requires exists i :: 0 <= i < |events| && minVal <= events[i].addr <= maxVal && events[i].addr != 0
    ensures forall k :: 0 <= k < |scup| ==>
              && minVal <= scup[k].addr <= maxVal && scup[k].addr != 0
              && scup[k].count == |set i: nat | i < |events| && events[i].addr == scup[k].addr|
              && scup[k].count > 0
    ensures forall i :: 0 <= i < |events| && minVal <= events[i].addr <= maxVal && events[i].addr != 0 ==>
              HasRow(scup, events[i].addr)
    ensures forall j, k :: 0 <= j < k < |scup| ==> scup[j].addr < scup[k].addr
  {
    var i :| 0 <= i < |events| && minVal <= events[i].addr <= maxVal && events[i].addr != 0;
    assert Kept(events[i].addr, minVal, maxVal);
    forall k | 0 <= k < |scup|
      ensures && minVal <= scup[k].addr <= maxVal && scup[k].addr != 0
              && scup[k].count == |set i: nat | i < |events| && events[i].addr == scup[k].addr| > 0
    {
      assert RowOk(events, minVal, maxVal, scup[k], maxVal + 1);
      RowCountsPositions(events, minVal, maxVal, scup[k]);
    }
  }

  lemma RowCountsPositions(events: seq<AddrEntry>, minVal: nat, maxVal: nat, row: AddrCountEntry)
    requires RowOk(events, minVal, maxVal, row, maxVal + 1)
    ensures row.count == |set i: nat | i < |events| && events[i].addr == row.addr| > 0
  {
    CountIsPositions(events, minVal, maxVal, row.addr, row.addr + 1);
    assert PositionsIn(events, minVal, maxVal, row.addr, row.addr + 1)
        == set i: nat | i < |events| && events[i].addr == row.addr;
    var i :| 0 <= i < |events| && events[i] == AddrEntry(row.time, row.addr);
    CountInSome(events, minVal, maxVal, row.addr, row.addr + 1, i);
  }

  method SortCountUnique(pageAddrs: seq<AddrEntry>, minVal: nat, maxVal: nat) returns (scup: seq<AddrCountEntry>)
    ensures CountsPages(pageAddrs, minVal, maxVal, scup)
  {
    var sorted := SortBy(pageAddrs, (e: AddrEntry) => e.addr);
    scup := [];
    var lastAddr, lastTime, cnt := 0, 0.0, 1;
    var i := 0;
    while i < |sorted|
      invariant i <= |sorted|
      invariant Scanned(sorted[..i], minVal, maxVal, scup, lastAddr, lastTime, cnt)
    {
      var curr := sorted[i];
      ghost var prefix := sorted[..i];
      assert sorted[..i + 1] == prefix + [curr];
      LastIsNotAbove(sorted, i, minVal, maxVal, scup, lastAddr, lastTime, cnt);
      i := i + 1;
      if curr.addr < minVal || curr.addr > maxVal || curr.addr == 0 {
        ScanSkips(prefix, curr, minVal, maxVal, scup, lastAddr, lastTime, cnt);
        continue;
      }
      if i - 1 == 0 || lastAddr == 0 {
        ScanStarts(prefix, curr, minVal, maxVal);
        lastAddr, lastTime := curr.addr, curr.time;
        continue;
      }
      if curr.addr == lastAddr {
        ScanCounts(prefix, curr, minVal, maxVal, scup, lastAddr, lastTime, cnt);
        cnt := cnt + 1;
        continue;
      }
      ScanMoves(prefix, curr, minVal, maxVal, scup, lastAddr, lastTime, cnt);
      scup := scup + [AddrCountEntry(lastTime, lastAddr, cnt)];
      cnt := 1;
      lastAddr, lastTime := curr.addr, curr.time;
    }
    assert sorted[..i] == sorted;
    TableFinishes(sorted, pageAddrs, minVal, maxVal, scup, lastAddr, lastTime, cnt);
    scup := scup + [AddrCountEntry(lastTime, lastAddr, cnt)];
  }
}
