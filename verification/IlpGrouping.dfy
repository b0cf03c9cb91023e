/** Merging regions into groups of ten and spreading a group's tier back over them. */
module IlpGrouping {
  import opened Sorting
  import opened Ilp

  datatype ModRegion = ModRegion(hotness: int, id: int, groupId: int)

  /** The narrowing of a received hotness to `int`. */
  function ToInt32(h: nat): (low: int)
    ensures -2147483648 <= low <= 2147483647 && (h - low) % 4294967296 == 0
    ensures h <= 2147483647 ==> low == h
  {
    var low := h % 0x1_0000_0000;
    if low < 0x8000_0000 then low else low - 0x1_0000_0000
  }

  function GroupCount(n: nat): nat {
    (n + MULTIPLIER_FACTOR - 1) / MULTIPLIER_FACTOR
  }

  ghost predicate DistinctRegionIds(s: seq<ModRegion>) {
    forall i, j :: 0 <= i < j < |s| ==> s[i].id != s[j].id
  }

  /** One entry for each received region, under its position and with its hotness. */
  ghost predicate HoldsRegions(s: seq<ModRegion>, regions: seq<nat>) {
    && |s| == |regions| && DistinctRegionIds(s)
    && forall i :: 0 <= i < |s| ==> 0 <= s[i].id < |regions| && s[i].hotness == ToInt32(regions[s[i].id])
  }

  /** Hotness order, cut into groups of ten. */
  ghost predicate Grouped(s: seq<ModRegion>) {
    && (forall i, j :: 0 <= i < j < |s| ==> s[i].hotness <= s[j].hotness)
    && (forall i :: 0 <= i < |s| ==> s[i].groupId == i / MULTIPLIER_FACTOR)
  }

  /** The largest hotness of positions [from, to), at least zero. */
  function MaxHotness(s: seq<ModRegion>, from: nat, to: nat): (m: nat)
    requires from <= to <= |s|
    ensures forall j :: from <= j < to ==> s[j].hotness <= m
    ensures m == 0 || exists j :: from <= j < to && s[j].hotness == m
  {
    if from == to then 0
    else
      var rest := MaxHotness(s, from, to - 1);
      if s[to - 1].hotness > rest then s[to - 1].hotness else rest
  }

  function GroupEnd(n: nat, g: nat): nat {
    if (g + 1) * MULTIPLIER_FACTOR > n then n else (g + 1) * MULTIPLIER_FACTOR
  }

  /** A group's hotness: the largest of its members, but never zero. */
  function GroupHotness(s: seq<ModRegion>, g: nat): (h: nat)
    requires g < GroupCount(|s|)
    ensures h > 0
  {
    var m := MaxHotness(s, g * MULTIPLIER_FACTOR, GroupEnd(|s|, g));
    if m == 0 then 1 else m
  }

  ghost predicate HotnessOfGroups(s: seq<ModRegion>, hot: seq<nat>) {
    |hot| == GroupCount(|s|) && forall g :: 0 <= g < |hot| ==> hot[g] == GroupHotness(s, g)
  }

  lemma PositionInGroup(n: nat, i: nat)
    requires i < n
    ensures var g := i / MULTIPLIER_FACTOR;
            g < GroupCount(n) && g * MULTIPLIER_FACTOR <= i < GroupEnd(n, g)
  {
  }

  /** No member is hotter than its group, and later groups are at least as hot. */
  lemma GroupsAscend(s: seq<ModRegion>, hot: seq<nat>)
    requires Grouped(s) && HotnessOfGroups(s, hot)
    ensures forall i :: 0 <= i < |s| ==> i / MULTIPLIER_FACTOR < |hot| && s[i].hotness <= hot[i / MULTIPLIER_FACTOR]
    ensures forall g, h :: 0 <= g <= h < |hot| ==> hot[g] <= hot[h]
  {
    forall i | 0 <= i < |s|
      ensures i / MULTIPLIER_FACTOR < |hot| && s[i].hotness <= hot[i / MULTIPLIER_FACTOR]
    {
      PositionInGroup(|s|, i);
    }
    forall g, h | 0 <= g < h < |hot| ensures hot[g] <= hot[h] {
      var from := h * MULTIPLIER_FACTOR;
      assert from < |s| && GroupEnd(|s|, g) <= from < GroupEnd(|s|, h);
      assert hot[h] == GroupHotness(s, h) && s[from].hotness <= hot[h];
      var m := MaxHotness(s, g * MULTIPLIER_FACTOR, GroupEnd(|s|, g));
      if m != 0 {
        var j :| g * MULTIPLIER_FACTOR <= j < GroupEnd(|s|, g) && s[j].hotness == m;
        assert s[j].hotness <= s[from].hotness;
      }
    }
  }

  // ---------- sums over regions and over groups ----------

  function SumBy(s: seq<ModRegion>, w: ModRegion -> real): real {
    if s == [] then 0.0 else SumBy(s[..|s| - 1], w) + w(s[|s| - 1])
  }

  lemma {:induction false} SumByRemove(s: seq<ModRegion>, w: ModRegion -> real, k: nat)
    requires k < |s|
    ensures SumBy(s, w) == SumBy(s[..k] + s[k + 1..], w) + w(s[k])
  {
    var last := |s| - 1;
    if k == last {
      assert s[..k] + s[k + 1..] == s[..k];
    } else {
      var rest := s[..k] + s[k + 1..];
      SumByRemove(s[..last], w, k);
      assert rest[..|rest| - 1] == s[..last][..k] + s[..last][k + 1..];
    }
  }

  /** A sum over the regions does not depend on their order. */
  lemma {:induction false} SumByPermutation(a: seq<ModRegion>, b: seq<ModRegion>, w: ModRegion -> real)
    requires multiset(a) == multiset(b)
    ensures SumBy(a, w) == SumBy(b, w)
    decreases |a|
  {
    if a == [] {
      assert |multiset(b)| == 0;
    } else {
      var k := TakeFromPermutation(a, b);
      SumByPermutation(a[..|a| - 1], b[..k] + b[k + 1..], w);
      SumByRemove(b, w, k);
    }
  }

  function GroupSum(bound: seq<real>, n: nat): real
    requires n <= |bound|
  {
    if n == 0 then 0.0 else GroupSum(bound, n - 1) + bound[n - 1]
  }

  /** Ten times the bounds of the full groups among n members, and the last group's bound for each of
      the others. */
  function Allowance(bound: seq<real>, n: nat): real
    requires GroupCount(n) <= |bound|
  {
    var g, k := n / MULTIPLIER_FACTOR, n % MULTIPLIER_FACTOR;
    10.0 * GroupSum(bound, g) + if k == 0 then 0.0 else k as real * bound[g]
  }

  lemma AllowanceStep(bound: seq<real>, m: nat)
    requires GroupCount(m + 1) <= |bound|
    ensures m / MULTIPLIER_FACTOR < |bound|
    ensures Allowance(bound, m + 1) == Allowance(bound, m) + bound[m / MULTIPLIER_FACTOR]
  {
    var g, k := m / MULTIPLIER_FACTOR, m % MULTIPLIER_FACTOR;
    if k == MULTIPLIER_FACTOR - 1 {
      assert (m + 1) / MULTIPLIER_FACTOR == g + 1 && (m + 1) % MULTIPLIER_FACTOR == 0;
    } else {
      assert (m + 1) / MULTIPLIER_FACTOR == g && (m + 1) % MULTIPLIER_FACTOR == k + 1;
      assert (k + 1) as real * bound[g] == k as real * bound[g] + bound[g];
    }
  }

  lemma ShareOfBound(k: nat, bound: real)
    requires k <= MULTIPLIER_FACTOR && bound >= 0.0
    ensures k as real * bound <= 10.0 * bound
  {
  }

  lemma AllowanceIsTenfold(bound: seq<real>, n: nat)
    requires |bound| == GroupCount(n) && forall g :: 0 <= g < |bound| ==> bound[g] >= 0.0
    ensures Allowance(bound, n) <= 10.0 * GroupSum(bound, |bound|)
  {
    var g, k := n / MULTIPLIER_FACTOR, n % MULTIPLIER_FACTOR;
    if k != 0 {
      assert |bound| == g + 1;
      ShareOfBound(k, bound[g]);
    } else {
      assert |bound| == g;
    }
  }

  lemma {:induction false} MembersWithinGroups(s: seq<ModRegion>, w: ModRegion -> real, bound: seq<real>, n: nat)
    requires n <= |s| && |bound| == GroupCount(|s|)
    requires forall i :: 0 <= i < |s| ==> i / MULTIPLIER_FACTOR < |bound| && w(s[i]) <= bound[i / MULTIPLIER_FACTOR]
    ensures GroupCount(n) <= |bound| && SumBy(s[..n], w) <= Allowance(bound, n)
  {
    if n > 0 {
      MembersWithinGroups(s, w, bound, n - 1);
      assert s[..n][..n - 1] == s[..n - 1];
      AllowanceStep(bound, n - 1);
    }
  }

  /** If no member weighs more than its group's bound, all members together weigh at most ten times
      the bounds. */
  lemma AllMembersWithinGroups(s: seq<ModRegion>, w: ModRegion -> real, bound: seq<real>)
    requires |bound| == GroupCount(|s|)
    requires forall g :: 0 <= g < |bound| ==> bound[g] >= 0.0
    requires forall i :: 0 <= i < |s| ==> i / MULTIPLIER_FACTOR < |bound| && w(s[i]) <= bound[i / MULTIPLIER_FACTOR]
    ensures SumBy(s, w) <= 10.0 * GroupSum(bound, |bound|)
  {
    MembersWithinGroups(s, w, bound, |s|);
    assert s[..|s|] == s;
    AllowanceIsTenfold(bound, |s|);
  }
}
