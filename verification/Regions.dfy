/** Regions of the traced address space: model.h `REGION_SKD`. */
module Regions {
  import opened Arithmetic
  import Tiers

  const REGION_SIZE := 2097152

  /** The part of a region that placement and migration read and write. */
  datatype RegionView = RegionView(start: nat, end: nat, curr: int, dst: int)

  /** The tier a region is destined for, or holds once nothing is pending. */
  function EffectiveTier(r: RegionView): int {
    if r.dst >= 0 then r.dst else r.curr
  }

  predicate IsTile(r: RegionView) {
    r.end == r.start + REGION_SIZE
  }

  function AlignedPages(r: RegionView): nat
    requires r.start <= r.end
  {
    (PageAlign(r.end) - PageAlign(r.start)) / PAGE_SIZE
  }

  /** Alignment never changes how many pages a 2 MB region spans. */
  lemma TileSpans512Pages(r: RegionView)
    requires IsTile(r)
    ensures AlignedPages(r) == 512
  {
    assert r.end % PAGE_SIZE == r.start % PAGE_SIZE;
  }

  class Region {
    var start: nat
    var end: nat
    var curr: int
    var dst: int
    var hotness: nat
    var collected: nat
    var id: nat

    constructor (start: nat, end: nat, id: nat)
      ensures this.start == start && this.end == end && this.id == id
      ensures curr == Tiers.FAST_NODE && dst == -1 && hotness == 0 && collected == 0
    {
      this.start, this.end, this.id := start, end, id;
      curr, dst, hotness, collected := Tiers.FAST_NODE, -1, 0, 0;
    }

    function View(): RegionView
      reads this
    {
      RegionView(start, end, curr, dst)
    }
  }

  ghost predicate Distinct(regions: seq<Region>) {
    forall i, j :: 0 <= i < j < |regions| ==> regions[i] != regions[j]
  }

  function ViewsUpTo(regions: seq<Region>, n: nat): (views: seq<RegionView>)
    requires n <= |regions|
    reads regions
    ensures |views| == n && forall i :: 0 <= i < n ==> views[i] == regions[i].View()
  {
    if n == 0 then [] else ViewsUpTo(regions, n - 1) + [regions[n - 1].View()]
  }

  function Views(regions: seq<Region>): (views: seq<RegionView>)
    reads regions
    ensures |views| == |regions|
    ensures forall i :: 0 <= i < |views| ==> views[i] == regions[i].View()
  {
    ViewsUpTo(regions, |regions|)
  }
}
