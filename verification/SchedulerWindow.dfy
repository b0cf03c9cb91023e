/** One profile window's migration: the byte-addressable phase, the joins, then the compressed
    phase (the tail of `th_process_events_and_migrate`). */
module SchedulerWindow {
  import opened Arithmetic
  import opened Tiers
  import opened Regions
  import opened Push
  import opened Scheduler
  import Safety = SchedulerSafety
  import Coverage = SchedulerCoverage

  /** What a window is given besides the regions: the answers and interleavings of its phases. */
  datatype Migration = Migration(byteRun: seq<Choice>, zswapRun: seq<Choice>)

  datatype Daemon = Daemon(tiers: Ladder, ntier: bool, threadCount: nat)

  ghost predicate Ready(d: Daemon, regions: seq<RegionView>, reach: seq<nat>) {
    && d.threadCount > 0 && |reach| == d.threadCount
    && ValidLadder(d.tiers)
    && (forall r :: 0 <= r < |regions| ==> IsTile(regions[r]))
    && (forall r :: 0 <= r < |regions| && regions[r].dst >= 0 ==> Known(d.tiers, regions[r].dst))
  }

  ghost predicate MigrationOk(d: Daemon, m: Migration) {
    ScheduleOk(m.byteRun, d.threadCount) && ScheduleOk(m.zswapRun, d.threadCount)
  }

  ghost function BytePhase(d: Daemon, regions: seq<RegionView>, reach: seq<nat>, m: Migration): (s: State)
    requires Ready(d, regions, reach) && MigrationOk(d, m)
    ensures |s.regions| == |s.pushed| == |regions| && Ready(d, s.regions, s.reach)
  {
    StartWellFormed(Config(d.tiers, d.ntier, true), regions, d.threadCount, reach, Zeros(|regions|));
    Run(Config(d.tiers, d.ntier, true), StartPhase(regions, d.threadCount, reach, Zeros(|regions|)), m.byteRun)
  }

  /** The state at the end of the window; meaningful once the first phase has joined. */
  ghost function Window(d: Daemon, regions: seq<RegionView>, reach: seq<nat>, m: Migration): (s: State)
    requires Ready(d, regions, reach) && MigrationOk(d, m)
    ensures |s.regions| == |s.pushed| == |regions| && Ready(d, s.regions, s.reach)
  {
    var s1 := BytePhase(d, regions, reach, m);
    StartWellFormed(Config(d.tiers, d.ntier, false), s1.regions, d.threadCount, s1.reach, s1.pushed);
    Run(Config(d.tiers, d.ntier, false), StartPhase(s1.regions, d.threadCount, s1.reach, s1.pushed), m.zswapRun)
  }

  /** Both phases run to their joins. */
  ghost predicate Completed(d: Daemon, regions: seq<RegionView>, reach: seq<nat>, m: Migration)
    requires Ready(d, regions, reach) && MigrationOk(d, m)
  {
    Joined(BytePhase(d, regions, reach, m)) && Joined(Window(d, regions, reach, m))
  }

  lemma WindowKeepsDestinedTiers(d: Daemon, regions: seq<RegionView>, reach: seq<nat>, m: Migration)
    requires Ready(d, regions, reach) && MigrationOk(d, m)
    ensures var s := Window(d, regions, reach, m);
            forall r :: 0 <= r < |regions| ==> EffectiveTier(s.regions[r]) == EffectiveTier(regions[r])
  {
    var byteCfg, zswapCfg := Config(d.tiers, d.ntier, true), Config(d.tiers, d.ntier, false);
    var s0 := StartPhase(regions, d.threadCount, reach, Zeros(|regions|));
    StartWellFormed(byteCfg, regions, d.threadCount, reach, Zeros(|regions|));
    Safety.PhaseKeepsDestinedTiers(byteCfg, s0, m.byteRun);
    var s1 := BytePhase(d, regions, reach, m);
    StartWellFormed(zswapCfg, s1.regions, d.threadCount, s1.reach, s1.pushed);
    Safety.PhaseKeepsDestinedTiers(zswapCfg,
                                   StartPhase(s1.regions, d.threadCount, s1.reach, s1.pushed), m.zswapRun);
  }

  ghost predicate AllMigrated(run: seq<Choice>) {
    forall i :: 0 <= i < |run| ==> run[i].env.migrateRet == 0
  }

  /** While the counts are unchanged, a window pushes each region at most once over both phases. If
      both phases join without a stop and no migrate call fails, every region with a target ends in
      the tier the mapping chose. */
  lemma WindowPlacesRegions(d: Daemon, regions: seq<RegionView>, reach: seq<nat>, m: Migration)
    requires Ready(d, regions, reach) && MigrationOk(d, m)
    requires Coverage.ReachOk(|regions|, d.threadCount, reach)
    ensures var s := Window(d, regions, reach, m);
            && Coverage.ReachOk(|regions|, d.threadCount, s.reach)
            && forall r :: 0 <= r < |regions| ==> s.pushed[r] <= 1
    ensures var s1, s := BytePhase(d, regions, reach, m), Window(d, regions, reach, m);
            Completed(d, regions, reach, m) && s1.stop == 0 && s.stop == 0
            && AllMigrated(m.byteRun) && AllMigrated(m.zswapRun)
            ==> forall r :: 0 <= r < |regions| ==>
                  s.pushed[r] == 1 && (regions[r].dst >= 0 ==> s.regions[r].curr == regions[r].dst)
  {
    var byteCfg, zswapCfg := Config(d.tiers, d.ntier, true), Config(d.tiers, d.ntier, false);
    var succeed := AllMigrated(m.byteRun) && AllMigrated(m.zswapRun);
    StartWellFormed(byteCfg, regions, d.threadCount, reach, Zeros(|regions|));
    Coverage.PhaseCoverage(byteCfg, regions, d.threadCount, reach, Zeros(|regions|), m.byteRun, succeed);
    var s1 := BytePhase(d, regions, reach, m);
    StartWellFormed(zswapCfg, s1.regions, d.threadCount, s1.reach, s1.pushed);
    Coverage.PhaseCoverage(zswapCfg, s1.regions, d.threadCount, s1.reach, s1.pushed, m.zswapRun, succeed);
  }

  /** Byte-addressable targets come first. The first phase leaves alone every region whose target has an id of
      at least 10, and if it joins without a stop or a failing call it has moved every other region that has
      a target; the second phase then leaves alone every region whose target has an id under 10. */
  lemma ByteTargetsFirst(d: Daemon, regions: seq<RegionView>, reach: seq<nat>, m: Migration, r: nat)
    requires Ready(d, regions, reach) && MigrationOk(d, m) && r < |regions|
    requires Coverage.ReachOk(|regions|, d.threadCount, reach)
    ensures var s1, s := BytePhase(d, regions, reach, m), Window(d, regions, reach, m);
            && (regions[r].dst >= 10 ==> s1.regions[r] == regions[r] && s1.pushed[r] == 0)
            && (Joined(s1) && s1.stop == 0 && AllMigrated(m.byteRun) && 0 <= regions[r].dst < 10 ==>
                  s1.regions[r].curr == regions[r].dst && s1.pushed[r] == 1)
            && (s1.regions[r].dst < 10 ==> s.regions[r] == s1.regions[r] && s.pushed[r] == s1.pushed[r])
  {
    var byteCfg, zswapCfg := Config(d.tiers, d.ntier, true), Config(d.tiers, d.ntier, false);
    var succeed := AllMigrated(m.byteRun);
    StartWellFormed(byteCfg, regions, d.threadCount, reach, Zeros(|regions|));
    Coverage.PhaseCoverage(byteCfg, regions, d.threadCount, reach, Zeros(|regions|), m.byteRun, succeed);
    var s1 := BytePhase(d, regions, reach, m);
    StartWellFormed(zswapCfg, s1.regions, d.threadCount, s1.reach, s1.pushed);
    Coverage.PhaseCoverage(zswapCfg, s1.regions, d.threadCount, s1.reach, s1.pushed, m.zswapRun, false);
  }
}
