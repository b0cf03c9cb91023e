# TierScape: a verified model

TierScape is a memory-tiering daemon. Every profile window it drains the sampled addresses of a traced
process, turns them into the hotness of 2 MB regions, picks a target tier for each region with one of
several mapping policies, and migrates regions with a pool of threads under a page cap and a time cap.
One policy sends the regions' hotness to a server that solves an integer linear program under a cost
budget. A small benchmark, masim, produces the memory accesses that the daemon is measured with.

This project models these parts in Dafny and proves what they promise each other. Run
`dafny verify dfyconfig.toml` in this directory.

- **Migration scheduler** (`Scheduler`, `SchedulerSafety`, `SchedulerClock`, `SchedulerTally`,
  `SchedulerOvershoot`, `SchedulerCoverage`, `SchedulerWindow`, `Push`). Every shared read, atomic update and
  call of a pusher thread is one step; a schedule picks the thread and the answers of the clock and of the
  system calls. The theorems hold for every schedule: the page counter overshoots its cap by at most one
  region per thread, which some schedule attains; every push has had a yes of the clock, a no ends its
  thread, and after any stop each thread pushes at most one region more; each counter is the number of
  pushes with its answer; no region ever loses the tier it is destined for; a phase ends; and each region is
  pushed at most once per window, the byte-addressable targets first.
- **Policies over many windows** (`Waterfall`, `Windows`, `Hemem`). The Waterfall policy is a class over
  mutable regions; composed with the scheduler, k cold windows sink a region exactly k rungs.
- **Hotness** (`Handoff`, `AddrSpaceUtil`, `PebsFixed`). The two threads lose no event; sorting, run-length
  counting and division indexing equal a plain histogram of the batch; the tiles cover the address range.
- **One window end to end** (`EventWindow`). From a batch of events through the tiles, the counting and the
  mapping to what any run of the migration leaves: a tile's events decide its tier.
- **ILP placement** (`Ilp`, `IlpBounds`, `IlpChoice`, `IlpGrouping`, `IlpSoundness`, `SkdIlp`,
  `MappingIlp`). The 0/1 program's optima are exactly the best choices of a tier for each group; the budget
  survives merging regions into groups and spreading the answer back; hotter groups are never slower; the
  reported bounds are bounds exactly when stated conditions hold. Carried through the server object and the
  client to the tier ids that the regions end up with: the budget and the overhead, that hotter regions are
  in no slower tiers, and the reported figures between their reported bounds.
- **masim** (`Sweep`, `AccessLoops`, `AStr`, `MasimText`, `MasimConfig`, `MasimRoundTrip`, `MasimDraw`). The
  sweeps' exact length, coverage and termination, the string splitting in place, the configuration reader
  with its round trip (a configuration written out is read back as it was), and the draw.
- **Shared**: `Tiers` (the tier table and its construction), `Regions`, `Sorting`, `Counting`, `Arithmetic`.

Costs are real numbers where the source uses `float`, and integers are unbounded except where a width is
written out (the narrowing of received hotness to `int`, `size_t` and `unsigned` in masim's
configuration, the bytes that masim increments).

What the callers must provide: tier ids are distinct and not negative (`ConstructedLadderIsValid` turns
that into the ladder all else relies on), there is at least one tier, the Waterfall policy gets no region
or at least ten of them (its progress line divides by a tenth of the count), and address sums do not
overflow 64 bits.

## Where the code does something its users might not expect

- `TerminatesExactly`, `OnePageSpins`: the sequential read loop never ends on a region of one page, nor
  with a stride of zero or of at least the region's size.
- `IndexInBoundsExactly`, `AssignEvents`, `EndOfTilesIsOutOfRange`: an event exactly at the end address of
  a range of whole tiles passes the filter and gets an index past the last region;
  `NothingIsMissedExactly` says what is lost.
- `OnePageTable` with `AssignEvents`: a batch with a single distinct in-range page leaves the old hotness.
- `EveryBudgetAchievableExactly`, `FractionalCostIsUnmeetable`: the lower cost bound is truncated, so a
  budget computed from it can be below every placement's cost unless the cheapest tier's cost for a full
  group is whole.
- `ReportedLossBounds`, `HotGroupExceedsMaxLoss`: the reported maximum loss leaves out groups at or above
  98985 and is then no bound.
- `PlacementIsRecordedExactly`, `AllPagesReportedExactly`, `FailedMoveIsRecorded`: a region whose pages
  could not be moved by `move_pages` is still recorded as placed, and a call that fails altogether counts
  as 512 pages.
- `ResultsExactly`, `PlacementIsRecordedExactly`, `ExitsExactly`: in a build without the migrate call a push to
  a compressed tier records the placement and answers -1, and on that answer the program exits.
- `TallyCountsRegionsExactly`, `TallyAfterWindow`, `UpgradedRegionCountsTwice`, `StaleEntry`: the Waterfall
  tally counts a region upgraded from swap under two tiers, and since it is reset by index but kept by tier
  id, an id at or above the number of tiers is never reset. An entry is the number of regions sent to its
  tier exactly if neither adds to it.
- `DrawRunsExactlyOne`, `DrawAboveTotal`, `NegativeProbabilityRunsTwo`: with a negative probability a draw
  can run two patterns, and with a negative total it can run none.

## Model

| member | source | states |
|---|---|---|
| Tiers.BuildTiers | skd_daemon/sk_daemon/utils/tier_utils.cpp:98-116 | the constructed table holds exactly the configured tiers, ascending by id |
| Tiers.ConstructedLadderIsValid | skd_daemon/sk_daemon/utils/tier_utils.cpp:98-116 | distinct, non-negative configured ids make that table a strictly ascending ladder |
| Tiers.LadderIsUnique | skd_daemon/sk_daemon/utils/tier_utils.cpp:103-110 | the ladder does not depend on the order in which tiers are inserted |
| Tiers.IndexIdRoundTrip | skd_daemon/sk_daemon/utils/model.h:271-286 | the index-to-id and id-to-index lookups are inverse on the table |
| Tiers.NextTierMovesOneRung | skd_daemon/sk_daemon/utils/model.h:288-303 | the next tier is one rung down and the last rung stays |
| Tiers.NextAndPrevUndoEachOther | skd_daemon/sk_daemon/utils/model.h:288-320 | next and previous undo each other exactly away from the end they saturate at |
| Tiers.UnknownIdLeadsToTop | skd_daemon/sk_daemon/utils/model.h:271-320 | from an unknown id both neighbours are the first tier; an index outside the table gives -1 and so does an unknown id |
| Tiers.SlowTierRung | skd_daemon/sk_daemon/utils/model.h:321-335 | the slow tier is the last rung unless the configured index names another; the fast one is rung 0 |
| Regions.TileSpans512Pages | skd_daemon/sk_daemon/utils/tier_utils.cpp:262-265 | a 2 MB region spans exactly 512 aligned pages wherever it starts |
| Push.PushOutcomes | skd_daemon/sk_daemon/utils/tier_utils.cpp:252-328 | a push leaves the region alone or completes its placement, reports at most 512 pages, reports -22 exactly for a missing target, and places the region whenever the migrate call succeeds |
| Push.ResultsExactly | skd_daemon/sk_daemon/utils/tier_utils.cpp:206-328 | which answer each push gives: -22, -20, -21, -23, -1, all 512 pages or the pages not left behind, each with its condition |
| Push.PlacementIsRecordedExactly | skd_daemon/sk_daemon/utils/tier_utils.cpp:292-327 | a push to another known tier records the placement if and only if no migrate call fails, whatever `move_pages` does |
| Push.AllPagesReportedExactly | skd_daemon/sk_daemon/utils/tier_utils.cpp:206-236 | for an uncompressed target all 512 pages are reported, and so counted, if and only if `move_pages` moved all of them or failed altogether; else exactly the pages it did not leave behind |
| Push.FailedMoveIsRecorded | skd_daemon/sk_daemon/utils/tier_utils.cpp:215-236 | an input whose `move_pages` call fails: 512 pages reported, region recorded in the target tier |
| Scheduler.ChunksPartition | skd_daemon/sk_daemon/core/migrate_thread.cpp:224-254 | the threads' chunks are disjoint and cover all regions |
| Scheduler.StepWellFormed | skd_daemon/sk_daemon/core/migrate_thread.cpp:100-185 | every step of every thread keeps indices inside the region array and held targets known |
| SchedulerSafety.StepKeepsPageBudget | skd_daemon/sk_daemon/core/migrate_thread.cpp:146-183 | every step keeps: above the cap, each further 512 pages have used up one thread for good |
| SchedulerSafety.PageOvershoot | skd_daemon/sk_daemon/core/migrate_thread.cpp:129-185 | in every interleaving of T threads the page counter stays at or below MAXPAGES - 1 + 512 * T |
| SchedulerOvershoot.OvershootIsAttained | skd_daemon/sk_daemon/core/migrate_thread.cpp:129-185 | for every number of threads some schedule of a phase reaches exactly MAXPAGES - 1 + 512 * T, and none of that phase goes further |
| SchedulerSafety.StepBalances | skd_daemon/sk_daemon/core/migrate_thread.cpp:139-179 | each step changes the untallied candidates by exactly what it changes the pushes in flight and the zero-moved pushes |
| SchedulerSafety.CountersReconcile | skd_daemon/sk_daemon/core/migrate_thread.cpp:203-212 | in every reachable state the printed difference is the pushes in flight plus the pushes that moved nothing; after the joins only the latter |
| SchedulerSafety.StepKeepsDestined | skd_daemon/sk_daemon/core/migrate_thread.cpp:129-143 | no step changes the tier that any region is destined for |
| SchedulerSafety.PhaseKeepsDestinedTiers | skd_daemon/sk_daemon/core/migrate_thread.cpp:223-258 | no interleaving, outcome, stop or exit of a phase changes any region's destined tier |
| SchedulerSafety.PhaseTerminates | skd_daemon/sk_daemon/core/migrate_thread.cpp:129-185 | the acting steps of any schedule are bounded by a measure of the start state, each using up part of it |
| SchedulerSafety.SpentBoundMeansJoined | skd_daemon/sk_daemon/core/migrate_thread.cpp:256-258 | when the bound is spent the joins return or the program has exited |
| SchedulerClock.EachPushHadAYes | skd_daemon/sk_daemon/core/migrate_thread.cpp:108-181 | a thread has never pushed more often than the clock has told it that time is left |
| SchedulerClock.NoEndsItsThread | skd_daemon/sk_daemon/core/migrate_thread.cpp:77-108 | once the clock says no to a thread, at its entry or after a push, stop is 2 and that thread pushes nothing more |
| SchedulerClock.OneMoreAfterNo | skd_daemon/sk_daemon/core/migrate_thread.cpp:108-183 | after that every other thread pushes at most one region more |
| SchedulerClock.FewMoreAfterNo | skd_daemon/sk_daemon/core/migrate_thread.cpp:108-183 | so all pushes of the phase after a no are fewer than its threads |
| SchedulerClock.AtMostOneMore | skd_daemon/sk_daemon/core/migrate_thread.cpp:108-183 | after any stop a thread pushes at most one region more, and none if it has not begun or has its last push behind it |
| SchedulerClock.StopHasACause | skd_daemon/sk_daemon/core/migrate_thread.cpp:77-165 | stop is 2 only after a no of the clock and 1 only with the page cap reached |
| SchedulerClock.StoppedExactly | skd_daemon/sk_daemon/core/migrate_thread.cpp:77-183 | when the threads have joined, a stop is set if and only if the clock once said no or 5000000 pages were reached |
| SchedulerClock.ExitIsFinal | skd_daemon/sk_daemon/core/migrate_thread.cpp:174-177 | after the program has exited no step changes anything |
| SchedulerTally.CountersAreResults | skd_daemon/sk_daemon/core/migrate_thread.cpp:146-179 | in every reachable state each counter of a non-positive answer is the number of pushes that gave it, but for answers a thread still holds |
| SchedulerTally.PagesAreResults | skd_daemon/sk_daemon/core/migrate_thread.cpp:146-150 | likewise the page counter is the sum of the positive answers and the region counter their number |
| SchedulerTally.JoinedCounters | skd_daemon/sk_daemon/core/migrate_thread.cpp:192-213 | after the joins the counters are exactly the pushes by their answers -20, -21, -22, -23, 0 and the positive ones |
| SchedulerTally.ExitsExactly | skd_daemon/sk_daemon/core/migrate_thread.cpp:161-178 | a phase exits only over an answer of -1, and once there is one the threads never join |
| SchedulerCoverage.PhaseCoverage | skd_daemon/sk_daemon/core/migrate_thread.cpp:113-143 | a phase pushes a skipped region never, a selected one at most once, and exactly once if it joins without a stop; the saved starts stay usable |
| SchedulerCoverage.ResumesInsideChunk | skd_daemon/sk_daemon/core/migrate_thread.cpp:113-128 | a thread starts at its chunk, or in the compressed phase at a saved start before its end; never past a chunk with regions |
| SchedulerWindow.WindowKeepsDestinedTiers | skd_daemon/sk_daemon/core/migrate_thread.cpp:398-407 | both phases together keep every region's destined tier |
| SchedulerWindow.WindowPlacesRegions | skd_daemon/sk_daemon/core/migrate_thread.cpp:400-407 | a window pushes each region at most once; if nothing stops or fails every region with a target ends in the tier the mapping chose |
| SchedulerWindow.ByteTargetsFirst | skd_daemon/sk_daemon/core/migrate_thread.cpp:133-138 | the first phase leaves targets of id 10 and above alone and, undisturbed, moves all others; the second leaves targets under 10 alone |
| Waterfall.WindowMovesTier | skd_daemon/sk_daemon/core/mapping_logic/mapping_waterfall.cpp:127-176 | one window leaves a region destined for the top rung if it is hot, or if its target was pending, the rung below has an id of at least 2 and no page is in swap; else for one rung down; always with a target pending |
| Waterfall.MappingWaterfall.ProcessRegions | skd_daemon/sk_daemon/core/mapping_logic/mapping_waterfall.cpp:72-177 | the loop sends in place every region at or above the threshold to the first tier, and every other to the tier below or, with a pending target, an id of at least 2 below and no page in swap, to the first; the tally becomes the reset tally plus one per placement made |
| Waterfall.ShortcutExactly | skd_daemon/sk_daemon/core/mapping_logic/mapping_waterfall.cpp:138-176 | which regions take the shortcut: exactly the cold ones with a pending target, an id of at least 2 below and no page in swap |
| Waterfall.BumpAllCounts | skd_daemon/sk_daemon/core/mapping_logic/mapping_waterfall.cpp:134-174 | the tally counts: each tier's entry grows by the number of placements into it, in any order |
| Waterfall.TallyCountsUpgradesTwice | skd_daemon/sk_daemon/core/mapping_logic/mapping_waterfall.cpp:148-176 | a window makes exactly as many tally hits as it has regions and swap upgrades together |
| Waterfall.HitsOfOne | skd_daemon/sk_daemon/core/mapping_logic/mapping_waterfall.cpp:129-176 | a region hits its target tier once and, if it was upgraded from swap, the tier it passed once more |
| Waterfall.TallyIsFreshExactly | skd_daemon/sk_daemon/core/mapping_logic/mapping_waterfall.cpp:80-83 | after a window a tier's entry equals the window's placements into it, passing ones included, if and only if its id is below the number of tiers, where the reset by index reaches it, or the entry was zero before |
| Waterfall.TallyAfterWindow | skd_daemon/sk_daemon/core/mapping_logic/mapping_waterfall.cpp:80-176 | a tier's entry after a window is the number of regions sent to it, plus those upgraded while passing it, plus what the reset left over |
| Waterfall.TallyCountsRegionsExactly | skd_daemon/sk_daemon/core/mapping_logic/mapping_waterfall.cpp:80-176 | a tier's entry is the number of regions sent to it if and only if the reset reached its id or the entry was zero, and no region was upgraded while passing it |
| Waterfall.UpgradedRegionCountsTwice | skd_daemon/sk_daemon/core/mapping_logic/mapping_waterfall.cpp:148-176 | an input: one cold region on its way to tier 1, with no page in swap, is sent to tier 0 and also counted under tier 10 |
| Waterfall.StaleEntry | skd_daemon/sk_daemon/core/mapping_logic/mapping_waterfall.cpp:80-83 | an input: with five tiers the entry of id 10 still holds the earlier window's regions |
| Windows.WindowMovesEveryRung | skd_daemon/sk_daemon/core/mapping_logic/mapping_waterfall.cpp:119-177 | after mapping and any run of both migration phases each region's destined rung is the mapping's: top, or one down |
| Windows.ColdRegionsSink | skd_daemon/sk_daemon/core/mapping_logic/mapping_waterfall.cpp:138-153 | after k windows that each find the region cold and with pages in swap, or placed, or above an id under 2, it is destined for rung min(i0 + k, n - 1), whatever the scheduler managed to push |
| Windows.SwappedRegionsSink | skd_daemon/sk_daemon/core/mapping_logic/mapping_waterfall.cpp:138-176 | so does a region that k windows find cold and with at least one page in swap |
| Windows.RisesExactly | skd_daemon/sk_daemon/core/mapping_logic/mapping_waterfall.cpp:127-176 | a window lifts a region exactly if it is hot, or its target is pending, the tier below has an id of at least 2 and no page is in swap |
| Windows.TrackFollowsLaw | skd_daemon/sk_daemon/core/mapping_logic/mapping_waterfall.cpp:127-176 | over any run a region's rung becomes 0 in exactly the windows in which it is hot or upgraded, and else goes down by one or stays at the bottom |
| Windows.RungCountsSinceRise | skd_daemon/sk_daemon/core/mapping_logic/mapping_waterfall.cpp:127-176 | over any run the rung is the number of windows since the last rise, or the bottom, wherever the region was before |
| Windows.OnlyHeatRises | skd_daemon/sk_daemon/core/mapping_logic/mapping_waterfall.cpp:168-176 | without compressed tiers, ids being below 2, a region rises exactly in its hot windows, whatever is in swap |
| Windows.HotRegionsRise | skd_daemon/sk_daemon/core/mapping_logic/mapping_waterfall.cpp:129-136 | after a hot window a region is destined for the fastest tier, whatever came before |
| Hemem.ProcessRegions | skd_daemon/sk_daemon/core/mapping_logic/mapping_hemem.cpp:6-54 | every region gets the first tier exactly if its hotness reaches the cut, else the tier of the configured index or the last one; a dead process or a setting below one changes nothing |
| Hemem.CutIsNamedValue | skd_daemon/sk_daemon/core/mapping_logic/mapping_hemem.cpp:25-42 | the cut is the whole part of the first percentile value named by the setting, or of the setting itself |
| Hemem.WindowKeepsCut | skd_daemon/sk_daemon/core/mapping_logic/mapping_hemem.cpp:44-51 | after the window's migration, however it went, each region is destined for rung 0 if its hotness reached the cut, else for the slow tier's rung |
| Handoff.StepKeepsInv | skd_daemon/sk_daemon/tracker_d.cpp:86-107 | each step of either thread keeps: the lines parsed = handed over, in transit, pending, held by the reader; lock ownership; empty child vector at window start |
| Handoff.NothingLost | skd_daemon/sk_daemon/tracker_d.cpp:86-146 | in every interleaving the batches taken, the one in transit, the pending events and the one the reader holds are exactly the lines the reader parsed, in order; no batch is empty |
| Handoff.MutualExclusion | skd_daemon/sk_daemon/tracker_d.cpp:89-146 | the two threads are never both inside their critical sections |
| Handoff.NoDeadlock | skd_daemon/sk_daemon/tracker_d.cpp:86-146 | in every reachable state one thread gets on, and with the mutex free both do |
| Handoff.WindowHandsOver | skd_daemon/sk_daemon/tracker_d.cpp:86-117 | a waking window thread that is not kept out hands over exactly what is pending as one batch; with nothing pending it sleeps again |
| AddrSpaceUtil.SortCountUnique | skd_daemon/sk_daemon/core/region_logic/addr_space_util.cpp:14-85 | the table lists every page that passes the filter once, ascending, with its exact number of events, or the single entry for page 0 if none passes |
| AddrSpaceUtil.TableIsHistogram | skd_daemon/sk_daemon/core/region_logic/addr_space_util.cpp:30-85 | in plain comparisons: ascending, exactly the addresses in the closed range other than zero, each with the number of its positions in the batch |
| AddrSpaceUtil.CountInPermutation | skd_daemon/sk_daemon/core/region_logic/addr_space_util.cpp:18 | the histogram does not depend on the order of the batch |
| PebsFixed.OnePageTable | skd_daemon/sk_daemon/core/region_logic/region_pebs_fixed.cpp:283-287 | the table has one entry exactly if the batch holds at most one distinct page in range |
| PebsFixed.RegionPebsFixed.FillRegions | skd_daemon/sk_daemon/core/region_logic/region_pebs_fixed.cpp:26-89 | rebuilding gives ceil(len / 2 MB) fresh regions in the fast tier without a target, region k being the k-th 2 MB tile, with no hotness or, if there were regions before, whatever hotness is carried over |
| PebsFixed.RegionPebsFixed.InitInitialRegions | skd_daemon/sk_daemon/core/region_logic/region_pebs_fixed.cpp:93-132 | initialisation happens once and takes the reported range if it is at least 1 MB long |
| PebsFixed.RegionPebsFixed.FixRegions | skd_daemon/sk_daemon/core/region_logic/region_pebs_fixed.cpp:136-186 | the tiles are rebuilt for the reported range, with answer 2, exactly if that is strictly longer; the tiling always holds |
| PebsFixed.RangeIsLongest | skd_daemon/sk_daemon/core/region_logic/region_pebs_fixed.cpp:160-177 | over any run of reports the range never shrinks and is at least as long as every report |
| PebsFixed.RegionPebsFixed.DivisionIndexCovers | skd_daemon/sk_daemon/core/region_logic/region_pebs_fixed.cpp:328-334 | every address of the range lies in the tile at its division index and in no other |
| PebsFixed.RegionPebsFixed.IndexInBoundsExactly | skd_daemon/sk_daemon/core/region_logic/region_pebs_fixed.cpp:323-334 | the division index is inside the tiles exactly unless the address is the end of a range of whole tiles |
| PebsFixed.RegionPebsFixed.AssignEvents | skd_daemon/sk_daemon/core/region_logic/region_pebs_fixed.cpp:269-410 | for every batch: how it ends, and when it ends well region k's hotness is the number of batch positions in the range, not zero, with division index k |
| PebsFixed.HotnessIsPositions | skd_daemon/sk_daemon/core/region_logic/region_pebs_fixed.cpp:316-347 | the histogram of a tile counts exactly the batch positions in the closed range, not zero, with that division index |
| PebsFixed.OutcomeOfPositions | skd_daemon/sk_daemon/core/region_logic/region_pebs_fixed.cpp:269-345 | how a batch ends in terms of its positions in the range: one page, a spread of over 500000 MB, one on the end of whole tiles, no percentiles, else new hotness |
| PebsFixed.RegionPebsFixed.CollectHotness | skd_daemon/sk_daemon/core/region_logic/region_pebs_fixed.cpp:322-347 | the loop gets through the table if and only if no row is on the end of whole tiles, and then every region has collected the rows at its division index |
| PebsFixed.TallyDecides | skd_daemon/sk_daemon/core/region_logic/region_pebs_fixed.cpp:322-347 | that is so if and only if no kept event is there, and then what the regions collected from zero is the plain histogram of the batch |
| PebsFixed.EndOfTilesIsOutOfRange | skd_daemon/sk_daemon/core/region_logic/region_pebs_fixed.cpp:316-334 | an input: one tile with an event on its start and one on its end indexes past the last region |
| PebsFixed.HotnessIsConserved | skd_daemon/sk_daemon/core/region_logic/region_pebs_fixed.cpp:316-347 | for every batch the tiles' positions plus those on the end of whole tiles are exactly the positions in the closed range other than zero |
| PebsFixed.NothingIsMissedExactly | skd_daemon/sk_daemon/core/region_logic/region_pebs_fixed.cpp:316-347 | the tiles' positions alone are all of them if and only if none is on the end of whole tiles |
| EventWindow.Tracker.ProcessEvents | skd_daemon/sk_daemon/core/migrate_thread.cpp:269-336 | a non-empty batch of a live process brings the tiles up to the reported range, keeping the regions exactly if the range stays, and maps every region by whether its tile's events reach the threshold; a one-page batch maps by the hotness the regions start with: the old one, or after a rebuild none or what was carried over; an empty batch or a dead process changes nothing |
| EventWindow.EventsDecideTiers | skd_daemon/sk_daemon/core/migrate_thread.cpp:310-407 | after the window's migration, in any interleaving, a region is destined for the fastest tier if its tile's positions in the batch reach the threshold, or if its target was pending, the tier below has an id of at least 2 and no page is in swap; else for the tier below its former one |
| Ilp.OneHotPicks | ilp_server/skd_ilp.cpp:48-55 | a 0/1 row of sum one picks exactly one tier's coefficient |
| Ilp.SwapRows | ilp_server/skd_ilp.cpp:58-69 | swapping two groups' rows keeps feasibility of the rows and the cost, and changes the objective by the four swapped terms |
| Ilp.HotterIsNoSlower | ilp_server/skd_ilp.cpp:59-94 | in any optimal placement a strictly hotter group's tier latency is at most the colder one's |
| IlpChoice.PlacementIsItsChoice | ilp_server/skd_ilp.cpp:48-94 | a 0/1 placement costs and loses what the tiers do that it gives the groups |
| IlpChoice.OptimalExactly | ilp_server/skd_ilp.cpp:48-94 | the program's optima are exactly the choices of one tier for each group that lose least within the budget |
| IlpGrouping.GroupsAscend | ilp_server/utils/utils_ilp.cpp:187-208 | no region is hotter than its group, and later groups are at least as hot |
| IlpGrouping.SumByPermutation | ilp_server/utils/utils_ilp.cpp:187 | a sum over the regions does not depend on how the sort breaks ties |
| IlpGrouping.AllMembersWithinGroups | ilp_server/utils/utils_ilp.cpp:190-208 | members bounded by their group add up to at most ten times the groups' bounds, short last group included |
| IlpSoundness.BudgetSurvivesGrouping | ilp_server/skd_ilp.cpp:59-94 | for any feasible group placement, spread back to regions, the true cost is within the limit and the true loss at most ten times the objective |
| IlpSoundness.HotterRegionIsNoSlower | ilp_server/utils/utils_ilp.cpp:187-208 | the hotter of two regions is in the same or a later group, and there never in a slower tier unless the groups tie |
| IlpSoundness.IdOrderIsIdentity | ilp_server/skd_ilp.cpp:167-169 | sorting by id puts region k at position k, whatever the first sort did with ties |
| IlpBounds.ReportedCostBounds | ilp_server/utils/utils_ilp.cpp:8-67 | every placement's cost is at least the reported minimum and below the reported maximum plus one per group |
| IlpBounds.BudgetBetweenBounds | ilp_server/skd_ilp.h:91-101 | the budget is never below the reported minimum, nor above the maximum for a setting of at most one, so the guard against an unmeetable limit never fires |
| IlpBounds.BudgetIsShare | ilp_server/skd_ilp.h:91-101 | the budget is the whole part of min + (max - min) * setting |
| IlpBounds.BudgetGrows | ilp_server/skd_ilp.h:91-101 | a setting of 0 buys the minimum and of 1 the maximum, and a larger one never less |
| IlpBounds.CostBoundsExactly | ilp_server/utils/utils_ilp.cpp:8-67 | the reported bounds are the whole parts of the cheapest and dearest tier's cost, once for each group |
| IlpBounds.AchievableExactly | ilp_server/skd_ilp.cpp:70-74 | a limit has a feasible placement if and only if the cheapest tier can hold every group within it |
| IlpBounds.EveryBudgetAchievableExactly | ilp_server/skd_ilp.h:91-101 | every setting in (0, 1) leaves a feasible placement if and only if the cheapest tier's cost for a full group is whole |
| IlpBounds.ShippedTiersAreAchievable | skd_daemon/sk_daemon/utils/model.h:199-242 | for every table of tiers that the constructors can build, with two costs and four ratios, every setting in (0, 1) leaves a feasible placement |
| IlpBounds.ConfiguredTiersAreAchievable | skd_daemon/sk_daemon/utils/tier_config.h:28-39 | so it is for the table of five as configured, whose full groups cost 200, 60, 160, 100 and 30 |
| IlpBounds.ConfiguredHalf | ilp_server/skd_ilp.h:91-101 | an input: one group in that table with a setting of one half gets 115 |
| IlpBounds.FractionalCostIsUnmeetable | ilp_server/utils/utils_ilp.cpp:58-66 | an input for which no budget can be met although the guard passes |
| IlpBounds.ReportedLossBounds | ilp_server/utils/utils_ilp.cpp:69-123 | the reported minimum loss is a lower bound for every placement; the maximum is an upper bound if and only if no group reaches 98985 or no tier has latency |
| IlpBounds.LossBoundsExactly | ilp_server/utils/utils_ilp.cpp:69-123 | the reported losses are all hotness in the fastest tier, and the hotness of the groups under 98985 in the slowest |
| IlpBounds.HotGroupExceedsMaxLoss | ilp_server/utils/utils_ilp.cpp:87-92 | an input for which the reported maximum loss is exceeded |
| SkdIlp.SkdIlp.GetMaxTco | ilp_server/utils/utils_ilp.cpp:8-38 | the loops compute the dearest tier's truncated share for every group, 0 before initialisation |
| SkdIlp.SkdIlp.GetMinTco | ilp_server/utils/utils_ilp.cpp:40-67 | the loops compute the cheapest tier's truncated share for every group, 0 before initialisation |
| SkdIlp.SkdIlp.GetMaxPerfLoss | ilp_server/utils/utils_ilp.cpp:69-97 | the loops compute the slowest tier's loss over the groups below the ceiling |
| SkdIlp.SkdIlp.GetMinPerfLoss | ilp_server/utils/utils_ilp.cpp:99-123 | the loops compute the fastest tier's loss over all groups |
| SkdIlp.SkdIlp.SetResourceLimit | ilp_server/skd_ilp.h:91-101 | the stored limit is the whole part of min + (max - min) * setting, and nothing else of the problem changes |
| SkdIlp.SkdIlp.InitDataFromComms | ilp_server/utils/utils_ilp.cpp:169-225 | the received regions are all there once, ascending by hotness in groups of ten, with each group's largest hotness (at least 1) and the received tier tables |
| SkdIlp.SkdIlp.SpreadOverRegions | ilp_server/skd_ilp.cpp:174-192 | each region gets its group's tier in region order; the throw happens exactly for a row without a one |
| SkdIlp.SkdIlp.Unmerge | ilp_server/skd_ilp.cpp:163-192 | for one-hot rows the throw is unreachable and entry k is the tier solved for the group that holds region k |
| SkdIlp.ColumnsAreRows | ilp_server/skd_ilp.cpp:200-213 | adding the cost tier by tier gives what the constraint adds group by group |
| SkdIlp.SkdIlp.AchievedCost | ilp_server/skd_ilp.cpp:196-213 | the reported achieved cost is the placement's cost |
| SkdIlp.SkdIlp.Solve | ilp_server/skd_ilp.cpp:14-161 | a packet comes back exactly if the limit reaches the minimum and the solver found an optimum; then it reports that optimum and the tiers are spread over the regions |
| MappingIlp.TransformToComm | skd_daemon/sk_daemon/core/mapping_logic/mapping_ilp.cpp:91-125 | tier t travels as index t with its cost, latency and ratio; the hotness list is the regions' in order |
| MappingIlp.ReadReply | skd_daemon/sk_daemon/core/mapping_logic/mapping_ilp.cpp:292-314 | each region stores the id of the tier at its index; a failed reply changes nothing; an index outside the table throws |
| MappingIlp.SpendIsTrueCost | ilp_server/skd_ilp.cpp:61-69 | what the stored ids cost, 2 MB each, is what the program's cost assigns to the spread tiers |
| MappingIlp.StoredPlacementIsSound | skd_daemon/sk_daemon/core/mapping_logic/mapping_ilp.cpp:293-303 | the stored ids are known, stay within the limit, and slow the regions down by at most ten times the objective if no hotness was narrowed |
| MappingIlp.StoredPairIsOrdered | ilp_server/skd_ilp.cpp:58-94 | if no hotness was narrowed, the hotter of two regions holds the id of a tier that is at least as fast, unless both are in one group or in groups of equal hotness |
| MappingIlp.PacketIsBounded | ilp_server/skd_ilp.cpp:196-227 | the packet's cost is at least its reported minimum and within the limit; its objective is at least its minimum loss and, if no region reaches 98985, at most its maximum; both are those of the chosen tiers |
| MappingIlp.Serve | ilp_server/server.cpp:74-99 | a packet comes back exactly if the solver found an optimum of the posed problem; then one index per region names the tier of a best choice for its group, and the placement is sound, hotter regions no slower |
| MappingIlp.ProcessRegions | skd_daemon/sk_daemon/core/mapping_logic/mapping_ilp.cpp:202-352 | 0 comes back exactly if the server was reached and its solver found an optimum; then every region holds the tier that a best choice within the setting's budget gives its group, with overhead within ten times the reported objective, which is that choice's, and hotter regions no slower; -1 leaves them alone |
| MappingIlp.WindowKeepsPlacement | skd_daemon/sk_daemon/core/migrate_thread.cpp:398-407 | after the window's migration, in any interleaving, the regions are destined for exactly the tiers the solver chose, within the same budget and overhead |
| Sweep.OffsetIsPeriodic | masim_mod/masim.c:144-150 | after k accesses a sweep stands on multiple k mod ceil(sz / stride) of the stride, inside the region |
| Sweep.DoSeqRo | masim_mod/masim.c:132-165 | the loop ends, by a lexicographic measure, whenever 0 < stride < sz and there are two pages, at the first read that completes the page count |
| Sweep.TerminatesExactly | masim_mod/masim.c:144-164 | on whole pages the loop ends if and only if 0 < stride < sz and the region has at least two pages |
| Sweep.OnePageSpins | masim_mod/masim.c:144-164 | a one-page region never completes a page |
| Sweep.AccessedInClosedForm | masim_mod/masim.c:144-157 | with a stride of at most a page the page count is whole sweeps times pages plus the page stood on |
| Sweep.FullSweep | masim_mod/masim.c:132-165 | for a stride of 1 to 4096 and n >= 2 pages the loop makes exactly ceil(sz / stride) reads, ends at offset 0 and touches every page |
| Sweep.PageStrideReadsOnce | masim_mod/README.md:24-28 | with a stride of one page every page is read exactly once, n reads in all |
| AccessLoops.Access.DoSeqWo | masim_mod/masim.c:210-223 | after a batch the position is that of the total access count, and exactly the visited bytes are 1 |
| AccessLoops.Access.DoSeqRw | masim_mod/masim.c:240-255 | after a batch the position is that of the total access count, and each byte has grown by its visits modulo 256 |
| AccessLoops.PositionInClosedForm | masim_mod/masim.c:216-222 | after k accesses since parsing the position is (k mod ceil(sz / stride)) * stride, inside the region |
| AccessLoops.SplitBatch | masim_mod/masim.c:213-222 | splitting a batch across calls changes no byte |
| AccessLoops.OnePeriodVisitsEachOnce | masim_mod/masim.c:216-221 | from any position, ceil(sz / stride) accesses visit every multiple of the stride once and nothing else |
| AccessLoops.FirstPeriodVisits | masim_mod/masim.c:213-222 | before the first sweep is over, k accesses since parsing have visited multiples 1 to k of the stride once each |
| AStr.Split | masim_mod/misc.c:204-234 | cutting the scratch copy in place yields the pieces between delimiters: one more than delimiters, none holding it, joining back to the input |
| AStr.Cut | masim_mod/misc.c:219-229 | one turn returns the next piece and leaves the scratch copy as it was |
| AStr.JoinOfPieces | masim_mod/misc.c:204-234 | joining the pieces with the delimiter gives the input back |
| AStr.PiecesOfJoin | masim_mod/misc.c:204-234 | joined delimiter-free pieces split back into themselves, so the split is the only answer |
| AStr.PiecesAreCounted | masim_mod/misc.c:148-160 | there is exactly one piece more than delimiters |
| MasimText.RmComments | masim_mod/masim.c:582-608 | the copy is the terminated lines that do not start with # |
| MasimText.KeptPositions | masim_mod/masim.c:582-608 | the kept lines are, in order, exactly those with a line end that do not start with # |
| MasimText.CommentsAreGone | masim_mod/masim.c:582-608 | the copy's lines are the kept lines in order and nothing else, and removing comments again changes nothing |
| MasimText.ParagraphLen | masim_mod/masim.c:610-618 | the answer is the first empty line, or -1 exactly if there is none |
| MasimConfig.ParseRegions | masim_mod/masim.c:620-648 | every line gives one region, or the first line without two fields is the error |
| MasimConfig.ParsePhase | masim_mod/masim.c:675-733 | a phase is its name, its time and one pattern per further line, with shares of the draw that follow one another; otherwise fewer than three lines or the first wrong pattern is the error |
| MasimConfig.PhaseOrReason | masim_mod/masim.c:681-715 | a paragraph makes a phase if and only if there is no reason against it |
| MasimConfig.ParsePhases | masim_mod/masim.c:735-776 | phase i is made of exactly the lines between empty lines i - 1 and i; no read goes past the last line; the first wrong paragraph is the error |
| MasimConfig.EveryLineIsInAPhase | masim_mod/masim.c:735-776 | for a text with a line end at its end (which comment removal always leaves) the lines are the phases' paragraphs, each closed by one empty line, and nothing else |
| MasimConfig.ReadConfig | masim_mod/masim.c:778-815 | the text without comments, up to its first NUL, splits at its first empty line into the regions and the phases; every exit has its reason |
| MasimRoundTrip.NumberIsRead | masim_mod/masim.c:640-717 | a number is read from its decimal digits, with a sign or without, behind white space and before anything that is no digit |
| MasimRoundTrip.ModeIsRead | masim_mod/masim.c:650-669 | the first two letters of the first word decide the mode |
| MasimRoundTrip.RegionIsRead | masim_mod/masim.c:635-643 | a region's line gives back its name and size |
| MasimRoundTrip.PatternIsRead | masim_mod/masim.c:696-723 | a pattern's line gives back its region, random flag, stride, probability and mode, or the default mode |
| MasimRoundTrip.RegionRefusedExactly | masim_mod/masim.c:637-638 | a region's line is refused if and only if it has not exactly one comma |
| MasimRoundTrip.PatternRefusedExactly | masim_mod/masim.c:697-715 | a pattern's line is refused exactly for a number of commas other than three or four, an unknown region or, with a fifth field, a wrong mode |
| MasimRoundTrip.PhaseIsRead | masim_mod/masim.c:675-733 | a phase's paragraph gives back that phase and no other |
| MasimRoundTrip.ReadPrinted | masim_mod/masim.c:778-815 | a configuration written out is read back exactly: all regions, phases, patterns and shares |
| MasimDraw.Draw | masim_mod/masim.c:373-382 | the loop runs exactly the patterns whose share holds the random number, in order |
| MasimDraw.ChosenAreSelected | masim_mod/masim.c:373-382 | a pattern is run exactly if the draw lies in its share |
| MasimDraw.DrawRunsExactlyOne | masim_mod/masim.c:373-382 | a draw in [0, total) runs one pattern plus one for each negative probability that takes it back, so exactly one if and only if none does |
| MasimDraw.DrawAboveTotal | masim_mod/masim.c:373-382 | a draw at or above the total, as a negative total gives, runs one pattern for each negative probability that takes it back, and none if and only if none does |
| MasimDraw.NonNegativeRunsExactlyOne | masim_mod/masim.c:373-382 | with non-negative probabilities every draw in [0, total) runs exactly one pattern |
| MasimDraw.SharesAreFair | masim_mod/masim.c:725-730 | with non-negative probabilities each pattern is run by as many of the draws as its probability |
| MasimDraw.NegativeProbabilityRunsTwo | masim_mod/masim.c:725-730 | an input with a negative probability for which one draw runs two patterns |

## Left out

- Solver internals, its time limit and the progress thread: the solver is a function whose answers are
  trusted only when reported optimal; solution values are exact 0 or 1.
- Floating-point rounding of costs, ratios and the budget: real numbers instead.
- Sockets, server start and loop, and the exchange's byte layout: an exchange is a call on sequences.
- `move_pages`, the migrate call, pagemap reads, clocks: their results are arbitrary inputs of each step,
  within the calling conventions of `EnvOk` (the migrate call gives 0 or -1, `move_pages` at most the
  number of pages, errno positive); `exit(1)` ends the run.
- Scheduler: threads, counters and regions are one state value, so sharing by reference is not captured; a
  push is one step, and shared accesses are sequentially consistent although `stop_threads` is a plain int.
- The counters printed by thread 0 are not a step; the theorem speaks of every reachable state instead.
- SchedulerCoverage.PhaseCoverage: only for unchanged region and thread counts, because the saved starts
  of the compressed phase keep old values when the regions are rebuilt.
- Windows.ColdRegionsSink: only between region rebuilds, which start all regions over.
- PebsFixed.RegionPebsFixed.FillRegions: the hotness carried over into rebuilt regions is an arbitrary
  input, because the code reads the old regions after freeing them.
- PebsFixed.RegionPebsFixed.AssignEvents: promises nothing about the hotness after an index past the last
  region; reported ranges are ordered and the division index fits an `int`; the two sorts of already
  ascending lists and the percentile files are left out.
- Fast and slow node numbers: fixed at 0 and 1, as configured; both are build options.
- Tiers.SlowTierId: a configured slow tier below -1, which would index before the table.
- Percentile files and their script: the hotness cut and the count of pages in swap are arbitrary inputs.
- Sweep.DoSeqRo and AccessLoops.Access.DoSeqWo: `offset + stride` does not wrap at 64 bits; the read value
  itself is not modelled.
- MasimConfig.ReadConfig: conversions of numbers outside `int` and a blank mode field, which C leaves
  undefined; buffer sizes.
- MasimDraw.Draw: a total probability of zero, which the code divides by.
- Waterfall.MappingWaterfall.ProcessRegions: with no regions at all the daemon then prints `regions[0]`
  (migrate_thread.cpp:339); printing is not modelled.
- Random access modes, memory hints, timing and printing of masim; `exec_phase` passes the page count of
  its first pattern's region to every pattern, and only the draw of its loop is modelled.
- `sort_count_unique_process`, `region_pebs_smart`, the scatter, google, damon and none mappings, fault
  distribution and averaging modes: compiled out or unused.
- Plotting, shell scripts, hotness bars, zswap statistics, signal handling, option parsing: no property
  beyond what one body shows.
