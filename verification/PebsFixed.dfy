/** The fixed 2 MB tiling of the traced address range (region_pebs_fixed.cpp). */
module PebsFixed {
  import opened AddrSpaceUtil
  import opened Arithmetic
  import opened Regions
  import Tiers

  const MB := 1048576

  /** How many regions cover `len` bytes: the last one may reach past the range. */
  function TileCount(len: nat): (n: nat)
    ensures (n - 1) * REGION_SIZE < len <= n * REGION_SIZE || (len == 0 && n == 0)
  {
    (len + REGION_SIZE - 1) / REGION_SIZE
  }

  datatype Range = Range(start: nat, end: nat)

  type AddressRange = r: Range | r.start <= r.end witness Range(0, 0)

  function Len(r: AddressRange): nat { r.end - r.start }

  /** The range that `init_initial_regions` settles on: a reported range below 1 MB is ignored. */
  function InitRange(current: AddressRange, reported: AddressRange): AddressRange {
    if current == reported || Len(reported) / MB == 0 then current else reported
  }

  /** The range that `fix_regions` settles on: only a longer range replaces the current one. */
  function FixRange(current: AddressRange, reported: AddressRange): AddressRange {
    if current != reported && Len(reported) > Len(current) then reported else current
  }

  /** The range that a window's regions tile. */
  function WindowRange(isInit: bool, range: AddressRange, reportedInit: AddressRange, reported: AddressRange): AddressRange {
    FixRange(if isInit then range else InitRange(range, reportedInit), reported)
  }

  /** The window goes on with the regions it found. */
  predicate KeepsRegions(isInit: bool, range: AddressRange, reported: AddressRange) {
    isInit && FixRange(range, reported) == range
  }

  /** The hotness region k starts a window with if the regions were rebuilt for it. A rebuild of
      existing regions carries over hotness that the code reads from freed memory: any value. */
  function StartHotness(isInit: bool, range: AddressRange, reportedInit: AddressRange, reported: AddressRange,
                        carried: nat -> nat, k: nat): nat {
    var before := if isInit then range else InitRange(range, reportedInit);
    if FixRange(before, reported) != before && TileCount(Len(before)) > 0 then carried(k) else 0
  }

  /** How `assign_events_to_regions` ends: too few pages (hotness kept), too wide a spread (the
      program ends), an index past the last region (undefined from there on), no percentiles (an
      error after collecting), or new hotness everywhere. */
  datatype Outcome = SinglePage | Exited | OutOfRange | CommEmpty | Updated

  ghost predicate KeptEvent(events: seq<AddrEntry>, range: AddressRange, e: AddrEntry) {
    e in events && Kept(e.addr, range.start, range.end)
  }

  /** At most one distinct page of the batch lies in the range. */
  ghost predicate OnePage(events: seq<AddrEntry>, range: AddressRange) {
    forall e, f :: KeptEvent(events, range, e) && KeptEvent(events, range, f) ==> e.addr == f.addr
  }

  /** Two pages of the batch lie more than 500000 MB apart. */
  ghost predicate Spread(events: seq<AddrEntry>, range: AddressRange) {
    exists e, f :: KeptEvent(events, range, e) && KeptEvent(events, range, f)
                   && e.addr <= f.addr && (f.addr - e.addr) / MB > 500000
  }

  /** The tiles end exactly where the range does. */
  predicate WholeTiles(range: AddressRange) {
    TileCount(Len(range)) * REGION_SIZE == Len(range)
  }

  /** The address is the end of a range of whole tiles, so no tile holds it although it passes the filter. */
  predicate Misses(range: AddressRange, addr: nat) {
    addr == range.end && WholeTiles(range)
  }

  ghost predicate AtTheEnd(events: seq<AddrEntry>, range: AddressRange) {
    exists e :: KeptEvent(events, range, e) && Misses(range, e.addr)
  }

  ghost function OutcomeOn(events: seq<AddrEntry>, range: AddressRange, commEmpty: bool): Outcome {
    if OnePage(events, range) then SinglePage
    else if Spread(events, range) then Exited
    else if AtTheEnd(events, range) then OutOfRange
    else if commEmpty then CommEmpty
    else Updated
  }

  lemma OnePageTable(events: seq<AddrEntry>, range: AddressRange, scup: seq<AddrCountEntry>)
    requires CountsPages(events, range.start, range.end, scup)
    ensures |scup| > 0
    ensures |scup| == 1 <==> OnePage(events, range)
    ensures |scup| > 1 ==> TableBelow(events, range.start, range.end, scup, range.end + 1)
  {
    if NoneKept(events, range.start, range.end) {
      assert forall e :: e in events ==> !Kept(e.addr, range.start, range.end);
    } else if |scup| == 1 {
      forall e | KeptEvent(events, range, e) ensures e.addr == scup[0].addr {
        assert HasRow(scup, e.addr);
      }
    } else {
      var a, b := AddrEntry(scup[0].time, scup[0].addr), AddrEntry(scup[1].time, scup[1].addr);
      assert RowOk(events, range.start, range.end, scup[0], range.end + 1);
      assert RowOk(events, range.start, range.end, scup[1], range.end + 1);
      assert KeptEvent(events, range, a) && KeptEvent(events, range, b);
    }
  }

  lemma SpreadTable(events: seq<AddrEntry>, range: AddressRange, scup: seq<AddrCountEntry>)
    requires TableBelow(events, range.start, range.end, scup, range.end + 1) && |scup| > 1
    ensures scup[0].addr <= scup[|scup| - 1].addr
    ensures (scup[|scup| - 1].addr - scup[0].addr) / MB > 500000 <==> Spread(events, range)
  {
    var first, last := scup[0], scup[|scup| - 1];
    assert RowOk(events, range.start, range.end, first, range.end + 1);
    assert RowOk(events, range.start, range.end, last, range.end + 1);
    assert KeptEvent(events, range, AddrEntry(first.time, first.addr));
    assert KeptEvent(events, range, AddrEntry(last.time, last.addr));
    forall e | KeptEvent(events, range, e) ensures first.addr <= e.addr <= last.addr {
      assert HasRow(scup, e.addr);
    }
  }

  /** One past the last of the first i rows. */
  function Bound(scup: seq<AddrCountEntry>, i: nat): nat
    requires i <= |scup|
  {
    if i == 0 then 0 else scup[i - 1].addr + 1
  }

  /** No kept event lies between two neighbouring rows, or above the last one. */
  lemma GapIsEmpty(events: seq<AddrEntry>, minVal: nat, maxVal: nat, scup: seq<AddrCountEntry>, i: nat, lo: int, hi: int)
    requires TableBelow(events, minVal, maxVal, scup, maxVal + 1) && i <= |scup|
    requires Bound(scup, i) <= lo && (i < |scup| ==> hi <= scup[i].addr)
    ensures CountIn(events, minVal, maxVal, lo, hi) == 0
  {
    forall j | 0 <= j < |events| && Kept(events[j].addr, minVal, maxVal)
      ensures !(lo <= events[j].addr < hi)
    {
      assert HasRow(scup, events[j].addr);
      var k :| 0 <= k < |scup| && scup[k].addr == events[j].addr;
      if i > 0 && k < i - 1 { assert scup[k].addr < scup[i - 1].addr; }
    }
    CountInNone(events, minVal, maxVal, lo, hi);
  }

  /** Row i adds its count to the bucket that holds its page and nothing to any other. */
  lemma BucketStep(events: seq<AddrEntry>, minVal: nat, maxVal: nat, scup: seq<AddrCountEntry>, i: nat, lo: int, hi: int)
    requires TableBelow(events, minVal, maxVal, scup, maxVal + 1) && i < |scup| && lo < hi
    ensures CountIn(events, minVal, maxVal, lo, Min(hi, Bound(scup, i + 1)))
            == CountIn(events, minVal, maxVal, lo, Min(hi, Bound(scup, i)))
               + if lo <= scup[i].addr < hi then scup[i].count else 0
  {
    var a, b := scup[i].addr, Bound(scup, i);
    assert RowOk(events, minVal, maxVal, scup[i], maxVal + 1);
    assert b <= a;
    if a < lo {
      CountInNone(events, minVal, maxVal, lo, Min(hi, a + 1));
      CountInNone(events, minVal, maxVal, lo, Min(hi, b));
    } else {
      var from := if b < lo then lo else b;
      if b < lo { CountInNone(events, minVal, maxVal, lo, b); CountInNone(events, minVal, maxVal, lo, lo); }
      if a < hi {
        CountInSplit(events, minVal, maxVal, lo, from, a + 1);
        CountInSplit(events, minVal, maxVal, from, a, a + 1);
        GapIsEmpty(events, minVal, maxVal, scup, i, from, a);
      } else if b < hi {
        CountInSplit(events, minVal, maxVal, lo, from, hi);
        GapIsEmpty(events, minVal, maxVal, scup, i, from, hi);
      }
    }
  }

  lemma BucketEnd(events: seq<AddrEntry>, minVal: nat, maxVal: nat, scup: seq<AddrCountEntry>, lo: int, hi: int)
    requires TableBelow(events, minVal, maxVal, scup, maxVal + 1) && lo < hi
    ensures CountIn(events, minVal, maxVal, lo, Min(hi, Bound(scup, |scup|))) == CountIn(events, minVal, maxVal, lo, hi)
  {
    var b := Bound(scup, |scup|);
    if b < hi {
      if b < lo {
        CountInNone(events, minVal, maxVal, lo, b);
        GapIsEmpty(events, minVal, maxVal, scup, |scup|, lo, hi);
      } else {
        CountInSplit(events, minVal, maxVal, lo, b, hi);
        GapIsEmpty(events, minVal, maxVal, scup, |scup|, b, hi);
      }
    }
  }

  /** The events of tile k: what the hotness of region k must be. */
  function HotnessOf(events: seq<AddrEntry>, range: AddressRange, k: nat): nat {
    CountIn(events, range.start, range.end, range.start + k * REGION_SIZE, range.start + (k + 1) * REGION_SIZE)
  }

  /** The batch positions of tile k: in the closed range, not zero, and k whole regions from its start. */
  ghost function InTile(events: seq<AddrEntry>, range: AddressRange, k: nat): set<nat> {
    set i: nat | i < |events| && range.start <= events[i].addr <= range.end && events[i].addr != 0
                 && (events[i].addr - range.start) / REGION_SIZE == k
  }

  /** The batch positions in the closed range. */
  ghost function InRange(events: seq<AddrEntry>, range: AddressRange): set<nat> {
    set i: nat | i < |events| && range.start <= events[i].addr <= range.end && events[i].addr != 0
  }

  /** A tile's hotness is its number of positions in the batch. */
  lemma HotnessIsPositions(events: seq<AddrEntry>, range: AddressRange, k: nat)
    ensures HotnessOf(events, range, k)
         == |set i: nat | i < |events| && range.start <= events[i].addr <= range.end && events[i].addr != 0
                          && (events[i].addr - range.start) / REGION_SIZE == k|
    ensures HotnessOf(events, range, k) == |InTile(events, range, k)|
  {
    var lo, hi := range.start + k * REGION_SIZE, range.start + (k + 1) * REGION_SIZE;
    CountIsPositions(events, range.start, range.end, lo, hi);
    forall i: nat | i < |events| && range.start <= events[i].addr
      ensures lo <= events[i].addr < hi <==> (events[i].addr - range.start) / REGION_SIZE == k
    {
      IndexIsTile(range.start, events[i].addr, k);
    }
    assert PositionsIn(events, range.start, range.end, lo, hi) == InTile(events, range, k);
  }

  lemma IndexIsTile(start: nat, addr: nat, k: nat)
    requires start <= addr
    ensures start + k * REGION_SIZE <= addr < start + (k + 1) * REGION_SIZE <==> (addr - start) / REGION_SIZE == k
  {
  }

  /** The events of tile k among the first i rows. */
  function Bucket(events: seq<AddrEntry>, range: AddressRange, scup: seq<AddrCountEntry>, k: nat, i: nat): nat
    requires i <= |scup|
  {
    CountIn(events, range.start, range.end, range.start + k * REGION_SIZE,
            Min(range.start + (k + 1) * REGION_SIZE, Bound(scup, i)))
  }

  /** Tile counts with one more row added at its division index. */
  function Added(range: AddressRange, row: AddrCountEntry, t: seq<nat>): (r: seq<nat>)
    ensures |r| == |t|
  {
    var y := (row.addr - range.start) / REGION_SIZE;
    if range.start <= row.addr <= range.end && y < |t| then t[y := t[y] + row.count] else t
  }

  function Tallied(range: AddressRange, scup: seq<AddrCountEntry>, base: seq<nat>, i: nat): (t: seq<nat>)
    requires i <= |scup|
    ensures |t| == |base|
  {
    if i == 0 then base else Added(range, scup[i - 1], Tallied(range, scup, base, i - 1))
  }

  /** From zero, the rows of the table add up to the plain histogram of the batch. */
  lemma {:induction false} TallyIsBuckets(events: seq<AddrEntry>, range: AddressRange, scup: seq<AddrCountEntry>,
                                          base: seq<nat>, i: nat)
    requires TableBelow(events, range.start, range.end, scup, range.end + 1) && i <= |scup|
    requires |base| == TileCount(Len(range)) && forall k :: 0 <= k < |base| ==> base[k] == 0
    requires NoneMissed(range, scup, |scup|)
    ensures forall k :: 0 <= k < |base| ==> Tallied(range, scup, base, i)[k] == Bucket(events, range, scup, k, i)
  {
    if i == 0 {
      forall k | 0 <= k < |base| ensures Bucket(events, range, scup, k, 0) == 0 {
        CountInNone(events, range.start, range.end, range.start + k * REGION_SIZE,
                    Min(range.start + (k + 1) * REGION_SIZE, 0));
      }
    } else {
      TallyIsBuckets(events, range, scup, base, i - 1);
      NoneMissedExactly(range, scup, |scup|);
      AddedIsBuckets(events, range, scup, Tallied(range, scup, base, i - 1), i - 1);
    }
  }

  lemma AddedIsBuckets(events: seq<AddrEntry>, range: AddressRange, scup: seq<AddrCountEntry>, t: seq<nat>, i: nat)
    requires TableBelow(events, range.start, range.end, scup, range.end + 1) && i < |scup|
    requires |t| == TileCount(Len(range)) && !Misses(range, scup[i].addr)
    requires forall k :: 0 <= k < |t| ==> t[k] == Bucket(events, range, scup, k, i)
    ensures forall k :: 0 <= k < |t| ==> Added(range, scup[i], t)[k] == Bucket(events, range, scup, k, i + 1)
  {
    RowIsIndexed(events, range, scup, i);
    BucketsStep(events, range, scup, i);
  }

  lemma BucketsStep(events: seq<AddrEntry>, range: AddressRange, scup: seq<AddrCountEntry>, i: nat)
    requires TableBelow(events, range.start, range.end, scup, range.end + 1) && i < |scup|
    requires range.start <= scup[i].addr
    ensures forall k: nat :: Bucket(events, range, scup, k, i + 1) == Bucket(events, range, scup, k, i)
              + if k == (scup[i].addr - range.start) / REGION_SIZE then scup[i].count else 0
  {
    forall k: nat ensures Bucket(events, range, scup, k, i + 1) == Bucket(events, range, scup, k, i)
        + if k == (scup[i].addr - range.start) / REGION_SIZE then scup[i].count else 0
    {
      var lo, hi := range.start + k * REGION_SIZE, range.start + (k + 1) * REGION_SIZE;
      BucketStep(events, range.start, range.end, scup, i, lo, hi);
      assert lo <= scup[i].addr < hi <==> k == (scup[i].addr - range.start) / REGION_SIZE;
    }
  }

  /** The tally of the table reaches its end exactly if no kept event is missed, and then it is the plain
      histogram of the batch. */
  lemma TallyDecides(events: seq<AddrEntry>, range: AddressRange, scup: seq<AddrCountEntry>)
    requires TableBelow(events, range.start, range.end, scup, range.end + 1)
    ensures NoneMissed(range, scup, |scup|) <==> !AtTheEnd(events, range)
    ensures !AtTheEnd(events, range) ==>
              forall k :: 0 <= k < TileCount(Len(range)) ==>
                Tallied(range, scup, Zeros(TileCount(Len(range))), |scup|)[k] == HotnessOf(events, range, k)
  {
    EndRowExactly(events, range, scup);
    if !AtTheEnd(events, range) {
      TallyIsBuckets(events, range, scup, Zeros(TileCount(Len(range))), |scup|);
      BucketsEnd(events, range, scup);
    }
  }

  lemma BucketsEnd(events: seq<AddrEntry>, range: AddressRange, scup: seq<AddrCountEntry>)
    requires TableBelow(events, range.start, range.end, scup, range.end + 1)
    ensures forall k: nat :: Bucket(events, range, scup, k, |scup|) == HotnessOf(events, range, k)
  {
    forall k: nat ensures Bucket(events, range, scup, k, |scup|) == HotnessOf(events, range, k) {
      BucketEnd(events, range.start, range.end, scup, range.start + k * REGION_SIZE, range.start + (k + 1) * REGION_SIZE);
    }
  }

  lemma TileIndex(range: AddressRange, addr: nat)
    requires range.start <= addr <= range.end
    ensures var y := (addr - range.start) / REGION_SIZE;
            && range.start + y * REGION_SIZE <= addr < range.start + (y + 1) * REGION_SIZE
            && (y < TileCount(Len(range)) <==> !Misses(range, addr))
  {
  }

  /** Every row passes the range test again, and its index finds a tile that covers it, unless the row
      is the end address of a range of whole tiles. */
  lemma RowIsIndexed(events: seq<AddrEntry>, range: AddressRange, scup: seq<AddrCountEntry>, i: nat)
    requires TableBelow(events, range.start, range.end, scup, range.end + 1) && i < |scup|
    ensures range.start <= scup[i].addr <= range.end
    ensures var y := (scup[i].addr - range.start) / REGION_SIZE;
            (y < TileCount(Len(range)) <==> !Misses(range, scup[i].addr))
            && range.start + y * REGION_SIZE <= scup[i].addr < range.start + (y + 1) * REGION_SIZE
  {
    assert RowOk(events, range.start, range.end, scup[i], range.end + 1);
    TileIndex(range, scup[i].addr);
  }

  predicate NoneMissed(range: AddressRange, scup: seq<AddrCountEntry>, i: nat)
    requires i <= |scup|
  {
    i == 0 || (NoneMissed(range, scup, i - 1) && !Misses(range, scup[i - 1].addr))
  }

  lemma {:induction false} MissedOnce(range: AddressRange, scup: seq<AddrCountEntry>, i: nat, n: nat)
    requires i < n <= |scup| && Misses(range, scup[i].addr)
    ensures !NoneMissed(range, scup, n)
  {
    if i < n - 1 { MissedOnce(range, scup, i, n - 1); }
  }

  lemma {:induction false} NoneMissedExactly(range: AddressRange, scup: seq<AddrCountEntry>, i: nat)
    requires i <= |scup|
    ensures NoneMissed(range, scup, i) <==> forall k :: 0 <= k < i ==> !Misses(range, scup[k].addr)
  {
    if i > 0 { NoneMissedExactly(range, scup, i - 1); }
  }

  /** The table has a row on that address exactly if the batch has a kept event there. */
  lemma EndRowExactly(events: seq<AddrEntry>, range: AddressRange, scup: seq<AddrCountEntry>)
    requires TableBelow(events, range.start, range.end, scup, range.end + 1)
    ensures NoneMissed(range, scup, |scup|) <==> !AtTheEnd(events, range)
  {
    NoneMissedExactly(range, scup, |scup|);
    forall e | KeptEvent(events, range, e) ensures HasRow(scup, e.addr) {
    }
    forall i | 0 <= i < |scup| ensures KeptEvent(events, range, AddrEntry(scup[i].time, scup[i].addr)) {
      assert RowOk(events, range.start, range.end, scup[i], range.end + 1);
    }
  }

  lemma {:induction false} HotnessSumIsPrefix(events: seq<AddrEntry>, range: AddressRange, n: nat)
    ensures TileSum(events, range, n)
            == CountIn(events, range.start, range.end, range.start, range.start + n * REGION_SIZE)
  {
    if n == 0 {
      CountInNone(events, range.start, range.end, range.start, range.start);
    } else {
      HotnessSumIsPrefix(events, range, n - 1);
      HotnessIsPositions(events, range, n - 1);
      CountInSplit(events, range.start, range.end, range.start, range.start + (n - 1) * REGION_SIZE,
                   range.start + n * REGION_SIZE);
    }
  }

  /** The batch positions of the first n tiles, tile by tile. */
  ghost function TileSum(events: seq<AddrEntry>, range: AddressRange, n: nat): nat {
    if n == 0 then 0 else TileSum(events, range, n - 1) + |InTile(events, range, n - 1)|
  }

  /** The batch positions on the end address, if the range is whole tiles: no tile holds them. */
  ghost function OnTheEnd(events: seq<AddrEntry>, range: AddressRange): set<nat> {
    set i: nat | i < |events| && events[i].addr == range.end && events[i].addr != 0
                 && (range.end - range.start) % REGION_SIZE == 0
  }

  lemma CountsOfRange(events: seq<AddrEntry>, range: AddressRange)
    ensures CountIn(events, range.start, range.end, 0, range.end + 1) == |InRange(events, range)|
    ensures (if WholeTiles(range) then CountIn(events, range.start, range.end, range.end, range.end + 1) else 0)
         == |OnTheEnd(events, range)|
  {
    CountIsPositions(events, range.start, range.end, 0, range.end + 1);
    assert PositionsIn(events, range.start, range.end, 0, range.end + 1) == InRange(events, range);
    CountIsPositions(events, range.start, range.end, range.end, range.end + 1);
    WholeTilesExactly(range);
    if WholeTiles(range) {
      assert PositionsIn(events, range.start, range.end, range.end, range.end + 1) == OnTheEnd(events, range);
    } else {
      assert OnTheEnd(events, range) == {};
    }
  }

  lemma WholeTilesExactly(range: AddressRange)
    ensures WholeTiles(range) <==> (range.end - range.start) % REGION_SIZE == 0
  {
  }

  /** The tiles together hold every position of the batch in the range once, but for those on the end
      address of a range of whole tiles. */
  lemma HotnessIsConserved(events: seq<AddrEntry>, range: AddressRange)
    ensures TileSum(events, range, TileCount(Len(range))) + |OnTheEnd(events, range)|
         == |set i: nat | i < |events| && range.start <= events[i].addr <= range.end && events[i].addr != 0|
  {
    var n := TileCount(Len(range));
    var top := range.start + n * REGION_SIZE;
    CountsOfRange(events, range);
    HotnessSumIsPrefix(events, range, n);
    CountInNone(events, range.start, range.end, 0, range.start);
    CountInSplit(events, range.start, range.end, 0, range.start, range.end + 1);
    if WholeTiles(range) {
      assert top == range.end;
      CountInSplit(events, range.start, range.end, range.start, top, range.end + 1);
    } else {
      CountInSplit(events, range.start, range.end, range.start, range.end + 1, top);
      CountInNone(events, range.start, range.end, range.end + 1, top);
    }
  }

  /** It is exactly the positions on that address that the tiles miss. */
  lemma NothingIsMissedExactly(events: seq<AddrEntry>, range: AddressRange)
    ensures TileSum(events, range, TileCount(Len(range))) == |InRange(events, range)|
        <==> !exists i :: 0 <= i < |events| && events[i].addr == range.end != 0
                          && (range.end - range.start) % REGION_SIZE == 0
  {
    HotnessIsConserved(events, range);
    if i :| 0 <= i < |events| && events[i].addr == range.end != 0 && (range.end - range.start) % REGION_SIZE == 0 {
      assert i in OnTheEnd(events, range);
    } else {
      assert OnTheEnd(events, range) == {};
    }
  }

  /** How a batch ends, in terms of its positions in the range: at most one page, two pages more than 500000 MB
      apart, one on the end address of a range of whole tiles, no percentiles, or new hotness. */
  lemma OutcomeOfPositions(events: seq<AddrEntry>, range: AddressRange, commEmpty: bool)
    ensures var at := set i: nat | i < |events| && range.start <= events[i].addr <= range.end && events[i].addr != 0;
            OutcomeOn(events, range, commEmpty)
            == if forall i, j :: i in at && j in at ==> events[i].addr == events[j].addr then SinglePage
               else if exists i, j :: i in at && j in at && events[j].addr - events[i].addr >= 500001 * 1048576 then Exited
               else if exists i :: i in at && events[i].addr == range.end && (range.end - range.start) % 2097152 == 0
                    then OutOfRange
               else if commEmpty then CommEmpty else Updated
  {
    OnePageExactly(events, range);
    SpreadExactly(events, range);
    EndExactly(events, range);
    assert InRange(events, range)
        == set i: nat | i < |events| && range.start <= events[i].addr <= range.end && events[i].addr != 0;
  }

  lemma KeptAt(events: seq<AddrEntry>, range: AddressRange)
    ensures forall i :: i in InRange(events, range) ==> KeptEvent(events, range, events[i])
    ensures forall e :: KeptEvent(events, range, e) ==> exists i :: i in InRange(events, range) && events[i] == e
  {
    forall e | KeptEvent(events, range, e) ensures exists i :: i in InRange(events, range) && events[i] == e {
      var i :| 0 <= i < |events| && events[i] == e;
      assert i in InRange(events, range);
    }
  }

  lemma OnePageExactly(events: seq<AddrEntry>, range: AddressRange)
    ensures OnePage(events, range)
        <==> forall i, j :: i in InRange(events, range) && j in InRange(events, range) ==> events[i].addr == events[j].addr
  {
    KeptAt(events, range);
  }

  lemma SpreadExactly(events: seq<AddrEntry>, range: AddressRange)
    ensures Spread(events, range)
        <==> exists i, j :: i in InRange(events, range) && j in InRange(events, range)
                            && events[j].addr - events[i].addr >= 500001 * 1048576
  {
    KeptAt(events, range);
    if Spread(events, range) {
      var e, f :| KeptEvent(events, range, e) && KeptEvent(events, range, f)
                  && e.addr <= f.addr && (f.addr - e.addr) / MB > 500000;
      var i :| i in InRange(events, range) && events[i] == e;
      var j :| j in InRange(events, range) && events[j] == f;
    }
    if i, j :| i in InRange(events, range) && j in InRange(events, range)
               && events[j].addr - events[i].addr >= 500001 * 1048576
    {
      assert KeptEvent(events, range, events[i]) && KeptEvent(events, range, events[j]);
    }
  }

  lemma EndExactly(events: seq<AddrEntry>, range: AddressRange)
    ensures AtTheEnd(events, range)
        <==> exists i :: i in InRange(events, range) && events[i].addr == range.end
                         && (range.end - range.start) % 2097152 == 0
  {
    KeptAt(events, range);
    WholeTilesExactly(range);
    if AtTheEnd(events, range) {
      var e :| KeptEvent(events, range, e) && Misses(range, e.addr);
      var i :| i in InRange(events, range) && events[i] == e;
    }
  }

  /** A range of one tile with one event on its start and one on its end. */
  lemma EndOfTilesIsOutOfRange()
    ensures OutcomeOn([AddrEntry(0.0, REGION_SIZE), AddrEntry(0.0, 2 * REGION_SIZE)],
                      Range(REGION_SIZE, 2 * REGION_SIZE), false) == OutOfRange
  {
    var a, b := AddrEntry(0.0, REGION_SIZE), AddrEntry(0.0, 2 * REGION_SIZE);
    var events, range := [a, b], Range(REGION_SIZE, 2 * REGION_SIZE);
    assert events[0] == a && events[1] == b;
    assert KeptEvent(events, range, a) && KeptEvent(events, range, b);
    assert Misses(range, b.addr);
  }

  /** The first half of `assign_events_to_regions`: count the pages, and give up on too few or too
      wide a spread. */
  method Tabulate(pageAddrs: seq<AddrEntry>, range: AddressRange)
    returns (scup: seq<AddrCountEntry>, verdict: Outcome)
    ensures verdict == if OnePage(pageAddrs, range) then SinglePage
                       else if Spread(pageAddrs, range) then Exited else Updated
    ensures verdict == Updated ==> TableBelow(pageAddrs, range.start, range.end, scup, range.end + 1)
  {
    scup := SortCountUnique(pageAddrs, range.start, range.end);
    OnePageTable(pageAddrs, range, scup);
    if |scup| == 1 {
      return scup, SinglePage;
    }
    SpreadTable(pageAddrs, range, scup);
    if (scup[|scup| - 1].addr - scup[0].addr) / MB > 500000 {
      return scup, Exited;
    }
    return scup, Updated;
  }

  class RegionPebsFixed {
    var regions: seq<Region>
    var range: AddressRange   // global_start_addr and global_end_addr
    var totalRegions: nat
    var isInit: bool

    constructor (reported: AddressRange)
      ensures regions == [] && range == reported && !isInit
    {
      regions, range, totalRegions, isInit := [], reported, 0, false;
    }

    /** Region k is the k-th 2 MB tile from the start of the range, and the tiles reach its end. */
    ghost predicate Tiled()
      reads this, regions
    {
      && totalRegions == |regions| == TileCount(Len(range))
      && Distinct(regions)
      && forall k :: 0 <= k < |regions| ==>
           regions[k].start == range.start + k * REGION_SIZE
           && regions[k].end == regions[k].start + REGION_SIZE && regions[k].id == k
    }

    /** The regions as they are built: in the fast tier, without a target. */
    ghost predicate Untouched()
      reads this, regions
    {
      forall k :: 0 <= k < |regions| ==> regions[k].curr == Tiers.FAST_NODE && regions[k].dst == -1
    }

    ghost predicate StartsWith(had: bool, carried: nat -> nat)
      reads this, regions
    {
      forall k :: 0 <= k < |regions| ==> regions[k].hotness == if had then carried(k) else 0
    }

    /** `fill_regions`. What it carries over from old regions is an input. */
    method FillRegions(carried: nat -> nat)
      modifies this
      ensures Tiled() && fresh(regions) && Untouched() && range == old(range) && isInit == old(isInit)
      ensures StartsWith(old(regions) != [], carried)
    {
      var had := |regions| != 0;
      regions := [];
      var idx := 0;
      var regionStart := range.start + idx * REGION_SIZE;
      var regionEnd := regionStart + REGION_SIZE;
      while regionEnd < range.end + REGION_SIZE
        invariant |regions| == idx <= TileCount(Len(range))
        invariant regionStart == range.start + idx * REGION_SIZE && regionEnd == regionStart + REGION_SIZE
        invariant range == old(range) && isInit == old(isInit)
        invariant fresh(regions) && Distinct(regions)
        invariant forall k :: 0 <= k < idx ==>
                    regions[k].start == range.start + k * REGION_SIZE
                    && regions[k].end == regions[k].start + REGION_SIZE && regions[k].id == k
                    && regions[k].curr == Tiers.FAST_NODE && regions[k].dst == -1
                    && regions[k].hotness == if had then carried(k) else 0
        decreases range.end + REGION_SIZE - regionEnd
      {
        var region := new Region(regionStart, regionEnd, idx);
        if had {
          region.hotness := carried(idx);
        }
        regions := regions + [region];
        idx := idx + 1;
        regionStart := range.start + idx * REGION_SIZE;
        regionEnd := regionStart + REGION_SIZE;
      }
      totalRegions := |regions|;
    }

    /** `init_initial_regions`: does nothing once the regions exist. */
    method InitInitialRegions(reported: AddressRange)
      modifies this
      ensures if old(isInit) || old(regions) != [] then unchanged(this)
              else && Tiled() && isInit && fresh(regions) && range == InitRange(old(range), reported)
                   && range == (if reported.end - reported.start >= 1048576 then reported else old(range))
                   && Untouched() && StartsWith(false, _ => 0)
    {
      if isInit || |regions| != 0 {
        return;
      }
      if range != reported && Len(reported) / MB != 0 {
        range := reported;
      }
      FillRegions(_ => 0);
      isInit := true;
    }

    /** `fix_regions`: rebuilds the tiles only for a strictly longer range, and then answers 2. */
    method FixRegions(reported: AddressRange, carried: nat -> nat) returns (ret: int)
      requires Tiled()
      modifies this
      ensures Tiled() && isInit == old(isInit)
      ensures range == FixRange(old(range), reported)
      ensures ret == 2 <==> reported.end - reported.start > old(range.end) - old(range.start)
      ensures range == if ret == 2 then reported else old(range)
      ensures if ret == 0 then regions == old(regions)
              else ret == 2 && fresh(regions) && Untouched() && StartsWith(old(regions) != [], carried)
    {
      if range == reported || Len(reported) <= Len(range) {
        return 0;
      }
      range := reported;
      FillRegions(carried);
      return 2;
    }

    /** The regions at the start of a window: initialised once, then fixed. */
    method Prepare(reportedInit: AddressRange, reported: AddressRange, carried: nat -> nat) returns (ret: int)
      requires isInit ==> Tiled()
      requires !isInit ==> regions == []
      modifies this
      ensures isInit && Tiled()
      ensures range == old(WindowRange(isInit, range, reportedInit, reported))
      ensures if old(KeepsRegions(isInit, range, reported)) then regions == old(regions)
              else && fresh(regions) && Untouched()
                   && forall k :: 0 <= k < |regions| ==>
                        regions[k].hotness == old(StartHotness(isInit, range, reportedInit, reported, carried, k))
    {
      if !isInit {
        InitInitialRegions(reportedInit);
      }
      ret := FixRegions(reported, carried);
    }

    /** Every address of the range lies in the tile at its division index, and in no other. */
    lemma DivisionIndexCovers(addr: nat)
      requires Tiled() && range.start <= addr < range.end
      ensures var y := (addr - range.start) / REGION_SIZE;
              && y < |regions| && regions[y].start <= addr < regions[y].end
              && forall k :: 0 <= k < |regions| && k != y ==> !(regions[k].start <= addr < regions[k].end)
    {
      var y := (addr - range.start) / REGION_SIZE;
      assert y * REGION_SIZE <= addr - range.start < (y + 1) * REGION_SIZE;
      forall k | 0 <= k < |regions| && k != y ensures !(regions[k].start <= addr < regions[k].end) {
        if k < y { assert (k + 1) * REGION_SIZE <= y * REGION_SIZE; }
      }
    }

    /** The division index stays inside the tiles, except for the end address of a range that is a
        whole number of tiles: that one passes the filter and indexes past the last region. */
    lemma IndexInBoundsExactly(addr: nat)
      requires Tiled() && range.start <= addr <= range.end
      ensures (addr - range.start) / REGION_SIZE < |regions|
              <==> !Misses(range, addr)
    {
      TileIndex(range, addr);
    }

    /** `assign_events_to_regions`, from the sampled batch to the regions' hotness. Both sorts of the
        source meet lists that are already ascending. `commEmpty` says that the percentile file
        opens but holds no line. */
    method AssignEvents(pageAddrs: seq<AddrEntry>, commEmpty: bool) returns (outcome: Outcome)
      requires Tiled()
      modifies regions`hotness, regions`collected
      ensures Tiled() && outcome == OutcomeOn(pageAddrs, range, commEmpty)
      ensures outcome in {SinglePage, Exited} ==>
                forall r :: r in regions ==> r.hotness == old(r.hotness) && r.collected == old(r.collected)
      ensures outcome == Updated ==> forall k :: 0 <= k < |regions| ==>
                regions[k].hotness == |InTile(pageAddrs, range, k)| && regions[k].collected == 0
      ensures outcome == CommEmpty ==>
                HotnessCollected(pageAddrs) && forall r :: r in regions ==> r.hotness == old(r.hotness)
    {
      var scup;
      scup, outcome := Tabulate(pageAddrs, range);
      if outcome != Updated {
        return;
      }
      var ok := CollectEvents(pageAddrs, scup);
      if !ok {
        outcome := OutOfRange;
        return;
      }
      if commEmpty {
        outcome := CommEmpty;
        return;
      }
      PublishHotness();
      forall k | 0 <= k < |regions| ensures regions[k].hotness == |InTile(pageAddrs, range, k)| {
        HotnessIsPositions(pageAddrs, range, k);
      }
    }

    method ResetCollected()
      requires Tiled()
      modifies regions`collected
      ensures Tiled()
      ensures forall k :: 0 <= k < |regions| ==> regions[k].collected == 0
    {
      var z := 0;
      while z < totalRegions
        invariant z <= totalRegions
        invariant forall k :: 0 <= k < z ==> regions[k].collected == 0
      {
        regions[z].collected := 0;
        z := z + 1;
      }
    }

    method PublishHotness()
      requires Tiled()
      modifies regions`hotness, regions`collected
      ensures Tiled()
      ensures forall k :: 0 <= k < |regions| ==>
                regions[k].hotness == old(regions[k].collected) && regions[k].collected == 0
    {
      var y := 0;
      while y < totalRegions
        invariant y <= totalRegions
        invariant forall k :: 0 <= k < y ==>
                    regions[k].hotness == old(regions[k].collected) && regions[k].collected == 0
        invariant forall k :: y <= k < |regions| ==> regions[k].collected == old(regions[k].collected)
      {
        regions[y].hotness := regions[y].collected;
        regions[y].collected := 0;
        y := y + 1;
      }
    }

    method CollectEvents(ghost pageAddrs: seq<AddrEntry>, scup: seq<AddrCountEntry>) returns (ok: bool)
      requires Tiled() && TableBelow(pageAddrs, range.start, range.end, scup, range.end + 1)
      modifies regions`collected
      ensures Tiled() && (ok <==> !AtTheEnd(pageAddrs, range))
      ensures ok ==> HotnessCollected(pageAddrs)
    {
      ok := Collect(scup);
      TallyDecides(pageAddrs, range, scup);
    }

    method Collect(scup: seq<AddrCountEntry>) returns (ok: bool)
      requires Tiled()
      modifies regions`collected
      ensures Tiled() && (ok <==> NoneMissed(range, scup, |scup|))
      ensures ok ==> HasCollected(Tallied(range, scup, Zeros(|regions|), |scup|))
    {
      ResetCollected();
      ok := CollectHotness(scup, Zeros(|regions|));
    }

    ghost predicate HotnessCollected(events: seq<AddrEntry>)
      reads this, regions
    {
      forall k :: 0 <= k < |regions| ==> regions[k].collected == HotnessOf(events, range, k)
    }

    /** The regions have collected these counts. */
    ghost predicate HasCollected(counts: seq<nat>)
      reads this, regions
    {
      |counts| == |regions| && forall k :: 0 <= k < |regions| ==> regions[k].collected == counts[k]
    }

    /** Adds a row to the region at its division index; false if that index is past the last region,
        where the source goes on with whatever lies there. */
    method AddRow(row: AddrCountEntry, ghost counts: seq<nat>) returns (ok: bool)
      requires Tiled() && HasCollected(counts)
      modifies regions`collected
      ensures Tiled() && (ok <==> !Misses(range, row.addr))
      ensures ok ==> HasCollected(Added(range, row, counts))
    {
      ok := true;
      if row.addr >= range.start && row.addr <= range.end {
        TileIndex(range, row.addr);
        var y := (row.addr - range.start) / REGION_SIZE;
        if y >= |regions| {
          return false;
        }
        if regions[y].start <= row.addr <= regions[y].end {
          regions[y].collected := regions[y].collected + row.count;
        }
      }
    }

    /** Adds row after row, up to the first one that no region holds. */
    method CollectHotness(scup: seq<AddrCountEntry>, ghost base: seq<nat>) returns (ok: bool)
      requires Tiled() && HasCollected(base)
      modifies regions`collected
      ensures Tiled() && (ok <==> NoneMissed(range, scup, |scup|))
      ensures ok ==> HasCollected(Tallied(range, scup, base, |scup|))
    {
      ok := true;
      var i := 0;
      while i < |scup|
        invariant i <= |scup|
        invariant NoneMissed(range, scup, i)
        invariant Tiled() && ok && HasCollected(Tallied(range, scup, base, i))
        modifies regions`collected
      {
        ok := AddRow(scup[i], Tallied(range, scup, base, i));
        if !ok {
          MissedOnce(range, scup, i, |scup|);
          return;
        }
        i := i + 1;
      }
    }
  }

  function RangeAfter(range: AddressRange, reports: seq<AddressRange>): AddressRange {
    if reports == [] then range
    else FixRange(RangeAfter(range, reports[..|reports| - 1]), reports[|reports| - 1])
  }

  /** Over any run of windows the tiled range is the longest one seen, so it never shrinks. */
  lemma {:induction false} RangeIsLongest(range: AddressRange, reports: seq<AddressRange>)
    ensures var after := RangeAfter(range, reports);
            && Len(range) <= Len(after)
            && (forall i :: 0 <= i < |reports| ==> Len(reports[i]) <= Len(after))
            && (after == range || after in reports)
  {
    if reports != [] {
      RangeIsLongest(range, reports[..|reports| - 1]);
    }
  }
}
