/** Counting the flags that hold in a sequence; used to count threads by program
    counter and regions by tier. */
module Counting {

  function Count(flags: seq<bool>): (n: nat)
    ensures n <= |flags|
  {
    if flags == [] then 0
    else Count(flags[..|flags| - 1]) + if flags[|flags| - 1] then 1 else 0
  }

  lemma {:induction false} CountUpdate(flags: seq<bool>, i: nat, b: bool)
    requires i < |flags|
    ensures Count(flags[i := b]) + (if flags[i] then 1 else 0) == Count(flags) + (if b then 1 else 0)
  {
    var last := |flags| - 1;
    var updated := flags[i := b];
    if i == last {
      assert updated[..last] == flags[..last];
    } else {
      assert updated[..last] == flags[..last][i := b];
      CountUpdate(flags[..last], i, b);
    }
  }

  lemma {:induction false} CountMonotone(a: seq<bool>, b: seq<bool>)
    requires |a| == |b|
    requires forall i :: 0 <= i < |a| && a[i] ==> b[i]
    ensures Count(a) <= Count(b)
  {
    if a != [] {
      CountMonotone(a[..|a| - 1], b[..|b| - 1]);
    }
  }

  /** One flag that turns on, with none turning off, raises the count. */
  lemma CountStrict(a: seq<bool>, b: seq<bool>, i: nat)
    requires |a| == |b| && i < |a|
    requires !a[i] && b[i]
    requires forall k :: 0 <= k < |a| && a[k] ==> b[k]
    ensures Count(a) + 1 <= Count(b)
  {
    CountUpdate(a, i, true);
    CountMonotone(a[i := true], b);
  }

  lemma {:induction false} CountNone(flags: seq<bool>)
    requires forall i :: 0 <= i < |flags| ==> !flags[i]
    ensures Count(flags) == 0
  {
    if flags != [] {
      CountNone(flags[..|flags| - 1]);
    }
  }

  lemma {:induction false} CountZeroExactly(flags: seq<bool>)
    ensures Count(flags) == 0 <==> true !in flags
  {
    if flags != [] {
      CountZeroExactly(flags[..|flags| - 1]);
    }
  }

  function Total(c: seq<nat>): nat {
    if c == [] then 0 else Total(c[..|c| - 1]) + c[|c| - 1]
  }

  /** Adding up entry by entry what two lists of flags contribute counts both lists. */
  lemma {:induction false} TotalOfTwo(c: seq<nat>, a: seq<bool>, b: seq<bool>)
    requires |a| == |b| == |c|
    requires forall i :: 0 <= i < |c| ==> c[i] == (if a[i] then 1 else 0) + if b[i] then 1 else 0
    ensures Total(c) == Count(a) + Count(b)
  {
    if c != [] {
      TotalOfTwo(c[..|c| - 1], a[..|a| - 1], b[..|b| - 1]);
    }
  }
}
