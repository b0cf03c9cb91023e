/** `push_a_region` and `move_to_dram_or_optane` of tier_utils.cpp, with the two system calls
    abstracted to their results. */
module Push {
  import opened Tiers
  import opened Regions

  const EINVAL := 22
  const ALREADY_IN_DRAM := -20
  const ALREADY_IN_OPTANE := -21
  const ALREADY_IN_ZSWAP := -22
  const ALREADY_SOMEWHERE := -23
  const LEN_IS_ZERO := -30

  /** What the environment answers during one step of one thread: whether the clock still allows
      work, the result of the migrate call, and the result and errno of `move_pages`. */
  datatype Env = Env(timeLeft: bool, migrateRet: int, moveRet: int, errno: int)

  /** The calling conventions: the C library reports any kernel failure of the migrate call as -1;
      `move_pages` fails below zero or counts the pages it left behind; errno is positive. */
  predicate EnvOk(e: Env) {
    (e.migrateRet == 0 || e.migrateRet == -1) && e.moveRet <= 512 && e.errno > 0
  }

  function MoveToDramOrOptane(pages: nat, moveRet: int, errno: int): int {
    if moveRet < 0 then (if errno != -22 then pages else -errno)
    else pages - moveRet
  }

  datatype PushResult = PushResult(ret: int, region: RegionView)

  function PushARegion(tiers: Ladder, ntier: bool, r: RegionView, dst: int, e: Env): PushResult
    requires r.start <= r.end
    requires dst >= 0 ==> Known(tiers, dst)
  {
    if dst < 0 then PushResult(-EINVAL, r)
    else
      var pages := AlignedPages(r);
      if pages == 0 then PushResult(LEN_IS_ZERO, r)
      else
        var tier := TierFromId(tiers, dst);
        if r.curr == dst then
          // The two tiers are one tier, so `are_tiers_similar` holds.
          if tier.backingStore == FAST_NODE then PushResult(ALREADY_IN_DRAM, r)
          else if tier.backingStore == SLOW_NODE then PushResult(ALREADY_IN_OPTANE, r)
          else PushResult(ALREADY_SOMEWHERE, r)
        else if ntier && e.migrateRet != 0 then PushResult(e.migrateRet, r)
        else
          var compressed := if ntier then pages else -1;
          var moved := if tier.memType != Compressed
                       then MoveToDramOrOptane(pages, e.moveRet, e.errno) else compressed;
          var failed := tier.memType != Compressed && moved < 0;
          PushResult(moved, if failed then r else r.(curr := dst, dst := -1))
  }

  /** For a known target that the region is not in yet, the push records the placement exactly if no
      migrate call fails, whatever `move_pages` does. */
  lemma PlacementIsRecordedExactly(tiers: Ladder, ntier: bool, r: RegionView, dst: int, e: Env)
    requires IsTile(r) && EnvOk(e) && dst >= 0 && Known(tiers, dst) && r.curr != dst
    ensures PushARegion(tiers, ntier, r, dst, e).region == r.(curr := dst, dst := -1)
        <==> !ntier || e.migrateRet == 0
  {
    TileSpans512Pages(r);
  }

  /** For an uncompressed target the pages reported, and so added to the page counter, are all 512 exactly
      if `move_pages` moved all of them or failed altogether. */
  lemma AllPagesReportedExactly(tiers: Ladder, ntier: bool, r: RegionView, dst: int, e: Env)
    requires IsTile(r) && EnvOk(e) && dst >= 0 && Known(tiers, dst) && r.curr != dst
    requires TierFromId(tiers, dst).memType != Compressed && (ntier ==> e.migrateRet == 0)
    ensures PushARegion(tiers, ntier, r, dst, e).ret == 512 <==> e.moveRet <= 0
    ensures e.moveRet > 0 ==> PushARegion(tiers, ntier, r, dst, e).ret == 512 - e.moveRet
  {
    TileSpans512Pages(r);
  }

  /** A failing `move_pages` call: nothing was moved, 512 pages are reported, the region is recorded in the
      target tier. */
  lemma FailedMoveIsRecorded()
    ensures var tiers := [TierInfo(FAST_NODE, Dram, FAST_NODE, 10, 2, 1.0), TierInfo(SLOW_NODE, Optane, SLOW_NODE, 3, 4, 1.0)];
            var r := RegionView(0, REGION_SIZE, FAST_NODE, SLOW_NODE);
            Known(tiers, SLOW_NODE)
            && PushARegion(tiers, false, r, SLOW_NODE, Env(true, 0, -1, 14))
               == PushResult(512, RegionView(0, REGION_SIZE, SLOW_NODE, -1))
  {
    var tiers := [TierInfo(FAST_NODE, Dram, FAST_NODE, 10, 2, 1.0), TierInfo(SLOW_NODE, Optane, SLOW_NODE, 3, 4, 1.0)];
    var r, e := RegionView(0, REGION_SIZE, FAST_NODE, SLOW_NODE), Env(true, 0, -1, 14);
    assert tiers[1].virtId == SLOW_NODE;
    PlacementIsRecordedExactly(tiers, false, r, SLOW_NODE, e);
    AllPagesReportedExactly(tiers, false, r, SLOW_NODE, e);
  }

  /** Which answer a push gives, exactly. Without a target: -22. In the target tier already: -20, -21 or -23 by
      the tier's backing node. Else -1 if a migrate call fails or if, in a build without one, the target is
      compressed; and else the pages not left behind, or all 512 for a compressed target. */
  lemma ResultsExactly(tiers: Ladder, ntier: bool, r: RegionView, dst: int, e: Env)
    requires IsTile(r) && EnvOk(e) && (dst >= 0 ==> Known(tiers, dst))
    ensures var ret := PushARegion(tiers, ntier, r, dst, e).ret;
            if dst < 0 then ret == -22
            else
              var tier := TierFromId(tiers, dst);
              if r.curr == dst then
                ret == if tier.backingStore == 0 then -20 else if tier.backingStore == 1 then -21 else -23
              else if ntier && e.migrateRet != 0 then ret == -1
              else if tier.memType == Compressed then ret == if ntier then 512 else -1
              else ret == if e.moveRet > 0 then 512 - e.moveRet else 512
  {
    TileSpans512Pages(r);
  }

  /** A push either leaves the region alone or completes the placement; it reports at most 512
      pages, never the code ALREADY_IN_ZSWAP for a valid target, and a positive count only for a
      completed placement. A region whose pages could not be moved is still recorded as placed. */
  lemma PushOutcomes(tiers: Ladder, ntier: bool, r: RegionView, dst: int, e: Env)
    requires IsTile(r) && EnvOk(e)
    requires dst >= 0 ==> Known(tiers, dst)
    ensures var p := PushARegion(tiers, ntier, r, dst, e);
            && (p.region == r || (dst >= 0 && p.region == r.(curr := dst, dst := -1)))
            && p.ret <= 512
            && (p.ret == ALREADY_IN_ZSWAP <==> dst < 0)
            && (p.ret >= 0 ==> p.region == r.(curr := dst, dst := -1))
            && (dst >= 0 && e.migrateRet == 0 ==> p.region.curr == dst)
  {
    TileSpans512Pages(r);
  }
}
