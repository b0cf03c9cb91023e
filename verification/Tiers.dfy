/** The tier table: model.h `TIERS_INFO` and its construction in tier_utils.cpp. */
module Tiers {
  import opened Arithmetic
  import opened Sorting

  const FAST_NODE := 0
  const SLOW_NODE := 1
  const COMPRESSED_STARTS_FROM := 10

  datatype MemType = Dram | Optane | Cxl | Hbm | Compressed

  datatype TierInfo = TierInfo(virtId: int, memType: MemType, backingStore: int,
                               cost: int, latency: int, ratio: real)

  type Ladder = seq<TierInfo>

  /** What the constructor leaves behind: at least one tier, ids non-negative and ascending. */
  ghost predicate ValidLadder(tiers: Ladder) {
    && |tiers| > 0
    && (forall i :: 0 <= i < |tiers| ==> 0 <= tiers[i].virtId)
    && (forall i, j :: 0 <= i < j < |tiers| ==> tiers[i].virtId < tiers[j].virtId)
  }

  ghost predicate Known(tiers: Ladder, id: int) {
    exists i :: 0 <= i < |tiers| && tiers[i].virtId == id
  }

  /** `get_virt_id_from_idx`: -1 for an index outside the table. */
  function VirtIdFromIdx(tiers: Ladder, idx: int): int {
    if idx < 0 || idx >= |tiers| then -1 else tiers[idx].virtId
  }

  /** `get_idx_from_virtid`, the scan resumed at index `from`. */
  function IdxFromVirtIdFrom(tiers: Ladder, id: int, from: nat): (idx: int)
    requires from <= |tiers|
    ensures idx == -1 || (from <= idx < |tiers| && tiers[idx].virtId == id)
    ensures idx == -1 <==> forall i :: from <= i < |tiers| ==> tiers[i].virtId != id
    ensures forall i :: from <= i < idx ==> tiers[i].virtId != id
    decreases |tiers| - from
  {
    if from == |tiers| then -1
    else if tiers[from].virtId == id then from
    else IdxFromVirtIdFrom(tiers, id, from + 1)
  }

  function IdxFromVirtId(tiers: Ladder, id: int): (idx: int)
    ensures idx == -1 || (0 <= idx < |tiers| && tiers[idx].virtId == id)
    ensures idx == -1 <==> !Known(tiers, id)
  {
    IdxFromVirtIdFrom(tiers, id, 0)
  }

  /** `getTierInfofromID`, for an id that the table holds. */
  function TierFromId(tiers: Ladder, id: int): (tier: TierInfo)
    requires Known(tiers, id)
    ensures tier.virtId == id && tier in tiers
  {
    tiers[IdxFromVirtId(tiers, id)]
  }

  function FastTierId(tiers: Ladder): int
    requires |tiers| > 0
  {
    tiers[0].virtId
  }

  /** `get_slow_tier_virt_id` under the command line's `slow_tier`. A negative value other than
      -1 would index before the table; the caller must not configure one. */
  function SlowTierId(tiers: Ladder, slowTier: int): int
    requires |tiers| > 0 && slowTier >= -1
  {
    if slowTier == -1 || slowTier >= |tiers| then tiers[|tiers| - 1].virtId
    else tiers[slowTier].virtId
  }

  /** `get_next_tier_virt_id`. */
  function NextTierId(tiers: Ladder, id: int): int
    requires |tiers| > 0
  {
    if id < 0 then tiers[0].virtId
    else
      var idx := IdxFromVirtId(tiers, id);
      if idx == -1 then tiers[0].virtId
      else if idx + 1 >= |tiers| then tiers[|tiers| - 1].virtId
      else tiers[idx + 1].virtId
  }

  /** `get_prev_tier_virt_id`. */
  function PrevTierId(tiers: Ladder, id: int): int
    requires |tiers| > 0
  {
    if id < 0 then tiers[0].virtId
    else
      var idx := IdxFromVirtId(tiers, id);
      if idx == -1 || idx - 1 < 0 then tiers[0].virtId else tiers[idx - 1].virtId
  }

  /** The constructor: each configured tier goes to the front, then all are sorted by id. */
  method BuildTiers(configured: seq<TierInfo>) returns (tiers: Ladder)
    ensures multiset(tiers) == multiset(configured)
    ensures SortedBy(tiers, (t: TierInfo) => t.virtId)
  {
    tiers := [];
    for i := 0 to |configured|
      invariant multiset(tiers) == multiset(configured[..i])
    {
      assert configured[..i + 1] == configured[..i] + [configured[i]];
      tiers := [configured[i]] + tiers;
    }
    assert configured[..|configured|] == configured;
    tiers := SortBy(tiers, (t: TierInfo) => t.virtId);
  }

  ghost predicate DistinctIds(tiers: seq<TierInfo>) {
    forall i, j :: 0 <= i < j < |tiers| ==> tiers[i].virtId != tiers[j].virtId
  }

  lemma {:induction false} DistinctIdsPermute(a: seq<TierInfo>, b: seq<TierInfo>)
    requires multiset(a) == multiset(b) && DistinctIds(a)
    ensures DistinctIds(b)
    decreases |a|
  {
    if b != [] {
      var last := b[|b| - 1];
      var k := TakeFromPermutation(b, a);
      var rest := a[..k] + a[k + 1..];
      assert DistinctIds(rest);
      DistinctIdsPermute(rest, b[..|b| - 1]);
      forall i | 0 <= i < |b| - 1 ensures b[i].virtId != last.virtId {
        assert b[i] in multiset(b[..|b| - 1]);
        assert b[i] in rest;
      }
    }
  }

  /** Distinct, non-negative configured ids give a valid ladder, and the same one in whatever order the
      tiers are configured. */
  lemma ConstructedLadderIsValid(configured: seq<TierInfo>, tiers: Ladder)
    requires configured != [] && DistinctIds(configured)
    requires forall i :: 0 <= i < |configured| ==> configured[i].virtId >= 0
    requires multiset(tiers) == multiset(configured) && SortedBy(tiers, (t: TierInfo) => t.virtId)
    ensures ValidLadder(tiers)
  {
    assert configured[0] in multiset(tiers);
    DistinctIdsPermute(configured, tiers);
    var key := (t: TierInfo) => t.virtId;
    forall i | 0 <= i < |tiers| ensures tiers[i].virtId >= 0 {
      assert tiers[i] in multiset(configured);
    }
    forall i, j | 0 <= i < j < |tiers| ensures tiers[i].virtId < tiers[j].virtId {
      assert key(tiers[i]) <= key(tiers[j]);
    }
  }

  lemma {:induction false} LadderIsUnique(a: Ladder, b: Ladder)
    requires multiset(a) == multiset(b)
    requires forall i, j :: 0 <= i < j < |a| ==> a[i].virtId < a[j].virtId
    requires forall i, j :: 0 <= i < j < |b| ==> b[i].virtId < b[j].virtId
    ensures a == b
    decreases |a|
  {
    if a == [] {
      assert |multiset(b)| == 0;
    } else {
      var k := TakeFromPermutation(a, b);
      assert b[|b| - 1] in multiset(a);
      assert k == |b| - 1;
      assert b[..k] + b[k + 1..] == b[..k];
      LadderIsUnique(a[..|a| - 1], b[..k]);
    }
  }

  /** The two lookups are inverse on the table, so a tier can travel to the solver as an index. */
  lemma IndexIdRoundTrip(tiers: Ladder, idx: int)
    requires ValidLadder(tiers)
    ensures 0 <= idx < |tiers| ==> IdxFromVirtId(tiers, VirtIdFromIdx(tiers, idx)) == idx
    ensures forall id :: Known(tiers, id) ==> VirtIdFromIdx(tiers, IdxFromVirtId(tiers, id)) == id
  {
    if 0 <= idx < |tiers| {
      var found := IdxFromVirtId(tiers, tiers[idx].virtId);
      assert Known(tiers, tiers[idx].virtId);
      assert !(found < idx) && !(idx < found);
    }
  }

  /** One demotion moves one rung down the ladder and stops at the last rung. */
  lemma NextTierMovesOneRung(tiers: Ladder, id: int)
    requires ValidLadder(tiers) && Known(tiers, id)
    ensures IdxFromVirtId(tiers, NextTierId(tiers, id))
            == Min(IdxFromVirtId(tiers, id) + 1, |tiers| - 1)
    ensures Known(tiers, NextTierId(tiers, id))
  {
    var idx := IdxFromVirtId(tiers, id);
    assert id >= 0;
    IndexIdRoundTrip(tiers, Min(idx + 1, |tiers| - 1));
  }

  /** From an id that no tier has, both ways lead to the first tier, and no index finds a tier outside the
      table. */
  lemma UnknownIdLeadsToTop(tiers: Ladder, id: int, idx: int)
    requires |tiers| > 0
    ensures id < 0 || !Known(tiers, id) ==> NextTierId(tiers, id) == PrevTierId(tiers, id) == tiers[0].virtId
    ensures VirtIdFromIdx(tiers, idx) == if 0 <= idx < |tiers| then tiers[idx].virtId else -1
    ensures IdxFromVirtId(tiers, id) == -1 <==> forall i :: 0 <= i < |tiers| ==> tiers[i].virtId != id
  {
  }

  /** The slow tier is the last rung, unless the command line names another by its index. */
  lemma SlowTierRung(tiers: Ladder, slowTier: int)
    requires ValidLadder(tiers) && slowTier >= -1
    ensures Known(tiers, SlowTierId(tiers, slowTier)) && IdxFromVirtId(tiers, FastTierId(tiers)) == 0
    ensures IdxFromVirtId(tiers, SlowTierId(tiers, slowTier))
         == if 0 <= slowTier < |tiers| then slowTier else |tiers| - 1
  {
    IndexIdRoundTrip(tiers, 0);
    IndexIdRoundTrip(tiers, if 0 <= slowTier < |tiers| then slowTier else |tiers| - 1);
  }

  /** Going down a rung and up again leads back, except from the last rung; and the other way round
      except from the first. */
  lemma NextAndPrevUndoEachOther(tiers: Ladder, id: int)
    requires ValidLadder(tiers) && Known(tiers, id)
    ensures PrevTierId(tiers, NextTierId(tiers, id)) == id <==> (id != tiers[|tiers| - 1].virtId || |tiers| == 1)
    ensures NextTierId(tiers, PrevTierId(tiers, id)) == id <==> (id != tiers[0].virtId || |tiers| == 1)
  {
    PrevOfNext(tiers, id);
    NextOfPrev(tiers, id);
  }

  lemma PrevOfNext(tiers: Ladder, id: int)
    requires ValidLadder(tiers) && Known(tiers, id)
    ensures PrevTierId(tiers, NextTierId(tiers, id)) == id <==> (id != tiers[|tiers| - 1].virtId || |tiers| == 1)
  {
    NextTierMovesOneRung(tiers, id);
    IndexIdRoundTrip(tiers, |tiers| - 1);
  }

  lemma NextOfPrev(tiers: Ladder, id: int)
    requires ValidLadder(tiers) && Known(tiers, id)
    ensures NextTierId(tiers, PrevTierId(tiers, id)) == id <==> (id != tiers[0].virtId || |tiers| == 1)
  {
    var idx := IdxFromVirtId(tiers, id);
    IndexIdRoundTrip(tiers, 0);
    if idx > 0 { IndexIdRoundTrip(tiers, idx - 1); }
  }
}
