/** How masim's phase loop draws the pattern to run (masim.c). */
module MasimDraw {
  import opened MasimConfig

  /** Where pattern j's share starts; the end of pattern j's share is the start of pattern j + 1's. */
  function Start(p: Phase, j: nat): int
    requires j <= |p.patterns|
  {
    SumProbability(p.patterns, j)
  }

  predicate Selected(p: Phase, draw: int, j: nat)
    requires j < |p.patterns|
  {
    Start(p, j) <= draw < Start(p, j + 1)
  }

  /** A negative probability takes the draw back out of the shares so far. */
  predicate TakenBack(p: Phase, draw: int, j: nat)
    requires j < |p.patterns|
  {
    Start(p, j + 1) <= draw < Start(p, j)
  }

  /** The patterns among the first ones whose share holds the draw, in order. */
  function Chosen(p: Phase, draw: int, upTo: nat): seq<nat>
    requires upTo <= |p.patterns|
  {
    if upTo == 0 then []
    else Chosen(p, draw, upTo - 1) + if Selected(p, draw, upTo - 1) then [upTo - 1] else []
  }

  lemma {:induction false} ChosenAreSelected(p: Phase, draw: int, upTo: nat, j: nat)
    requires upTo <= |p.patterns|
    ensures j in Chosen(p, draw, upTo) <==> j < upTo && Selected(p, draw, j)
  {
    if upTo > 0 { ChosenAreSelected(p, draw, upTo - 1, j); }
  }

  function TakenBackUpTo(p: Phase, draw: int, upTo: nat): nat
    requires upTo <= |p.patterns|
  {
    if upTo == 0 then 0 else TakenBackUpTo(p, draw, upTo - 1) + if TakenBack(p, draw, upTo - 1) then 1 else 0
  }

  /** The inner loop of `exec_phase` for one random number: the patterns it accesses, in order. */
  method Draw(p: Phase, randn: int) returns (chosen: seq<nat>)
    requires SharesFollow(p)
    ensures chosen == Chosen(p, randn, |p.patterns|)
  {
    chosen := [];
    for i := 0 to |p.patterns|
      invariant chosen == Chosen(p, randn, i)
    {
      var probStart := p.patterns[i].probStart;
      var probEnd := probStart + p.patterns[i].pattern.probability;
      if randn >= probStart && randn < probEnd {
        chosen := chosen + [i];
      }
    }
  }

  lemma {:induction false} Crossings(p: Phase, draw: nat, upTo: nat)
    requires upTo <= |p.patterns|
    ensures |Chosen(p, draw, upTo)| == TakenBackUpTo(p, draw, upTo) + if draw < Start(p, upTo) then 1 else 0
  {
    if upTo > 0 { Crossings(p, draw, upTo - 1); }
  }

  lemma {:induction false} NoneTakenBack(p: Phase, draw: int, upTo: nat)
    requires upTo <= |p.patterns|
    ensures TakenBackUpTo(p, draw, upTo) == 0 <==> forall j :: 0 <= j < upTo ==> !TakenBack(p, draw, j)
  {
    if upTo > 0 { NoneTakenBack(p, draw, upTo - 1); }
  }

  /** Every draw below the total runs at least one pattern, and runs exactly one exactly if no negative
      probability takes the draw back. */
  lemma DrawRunsExactlyOne(p: Phase, draw: nat)
    requires SharesFollow(p) && draw < p.totalProbability
    ensures |Chosen(p, draw, |p.patterns|)| == 1 + TakenBackUpTo(p, draw, |p.patterns|)
    ensures |Chosen(p, draw, |p.patterns|)| == 1
        <==> forall j :: 0 <= j < |p.patterns| ==> !TakenBack(p, draw, j)
  {
    Crossings(p, draw, |p.patterns|);
    NoneTakenBack(p, draw, |p.patterns|);
  }

  /** With a negative total the remainder still gives draws from 0 on, all at or above the total: they run as
      many patterns as take them back. */
  lemma DrawAboveTotal(p: Phase, draw: nat)
    requires SharesFollow(p) && p.totalProbability <= draw
    ensures |Chosen(p, draw, |p.patterns|)| == TakenBackUpTo(p, draw, |p.patterns|)
    ensures Chosen(p, draw, |p.patterns|) == [] <==> forall j :: 0 <= j < |p.patterns| ==> !TakenBack(p, draw, j)
  {
    Crossings(p, draw, |p.patterns|);
    NoneTakenBack(p, draw, |p.patterns|);
  }

  predicate NoNegativeProbability(p: Phase) {
    forall j :: 0 <= j < |p.patterns| ==> p.patterns[j].pattern.probability >= 0
  }

  lemma NonNegativeRunsExactlyOne(p: Phase, draw: nat)
    requires SharesFollow(p) && draw < p.totalProbability && NoNegativeProbability(p)
    ensures |Chosen(p, draw, |p.patterns|)| == 1
  {
    DrawRunsExactlyOne(p, draw);
  }

  /** Shares of 2, -1 and 2: the draw 1 runs the first and the last pattern. */
  lemma NegativeProbabilityRunsTwo(p: Phase)
    requires SharesFollow(p) && |p.patterns| == 3
    requires p.patterns[0].pattern.probability == 2
    requires p.patterns[1].pattern.probability == -1
    requires p.patterns[2].pattern.probability == 2
    ensures p.totalProbability == 3
    ensures Selected(p, 1, 0) && !Selected(p, 1, 1) && Selected(p, 1, 2)
  {
    assert Start(p, 1) == 2 && Start(p, 2) == 1 && Start(p, 3) == 3;
  }

  function DrawsFor(p: Phase, j: nat, below: nat): nat
    requires j < |p.patterns|
  {
    if below == 0 then 0 else DrawsFor(p, j, below - 1) + if Selected(p, below - 1, j) then 1 else 0
  }

  lemma {:induction false} DrawsBelow(p: Phase, j: nat, below: nat)
    requires j < |p.patterns| && 0 <= Start(p, j) <= Start(p, j + 1)
    ensures DrawsFor(p, j, below)
         == if below <= Start(p, j) then 0
            else if below <= Start(p, j + 1) then below - Start(p, j)
            else Start(p, j + 1) - Start(p, j)
  {
    if below > 0 { DrawsBelow(p, j, below - 1); }
  }

  lemma {:induction false} StartsAscend(p: Phase, j: nat, k: nat)
    requires j <= k <= |p.patterns| && NoNegativeProbability(p)
    ensures 0 <= Start(p, j) <= Start(p, k)
    decreases k
  {
    if j < k {
      StartsAscend(p, j, k - 1);
    } else if j > 0 {
      StartsAscend(p, j - 1, j - 1);
    }
  }

  /** Of the totalProbability draws, as many run pattern j as its probability says. */
  lemma SharesAreFair(p: Phase, j: nat)
    requires SharesFollow(p) && NoNegativeProbability(p) && j < |p.patterns|
    ensures p.totalProbability >= 0
    ensures DrawsFor(p, j, p.totalProbability) == p.patterns[j].pattern.probability
  {
    StartsAscend(p, j, |p.patterns|);
    StartsAscend(p, j + 1, |p.patterns|);
    DrawsBelow(p, j, p.totalProbability);
  }
}
