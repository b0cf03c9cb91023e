/** masim's string splitting on a scratch copy (misc.c). */
module AStr {

  const NUL := '\0'

  function CountOf<T(==)>(s: seq<T>, d: T, from: nat): nat
    requires from <= |s|
    decreases |s| - from
  {
    if from == |s| then 0 else CountOf(s, d, from + 1) + if s[from] == d then 1 else 0
  }

  /** The first place of d at or after `from`, or the end. */
  function FirstAt<T(==)>(s: seq<T>, d: T, from: nat): (at: nat)
    requires from <= |s|
    ensures from <= at <= |s| && forall k :: from <= k < at ==> s[k] != d
    ensures at < |s| ==> s[at] == d
    decreases |s| - from
  {
    if from == |s| || s[from] == d then from else FirstAt(s, d, from + 1)
  }

  /** The stretches of s from `from` on between consecutive places of d. */
  function Pieces<T(==)>(s: seq<T>, d: T, from: nat): (r: seq<seq<T>>)
    requires from <= |s|
    ensures |r| > 0
    decreases |s| - from
  {
    var at := FirstAt(s, d, from);
    if at == |s| then [s[from..]] else [s[from..at]] + Pieces(s, d, at + 1)
  }

  function Join<T>(pieces: seq<seq<T>>, d: T): seq<T>
    requires |pieces| > 0
  {
    if |pieces| == 1 then pieces[0] else pieces[0] + [d] + Join(pieces[1..], d)
  }

  lemma JoinCons<T>(head: seq<T>, rest: seq<seq<T>>, d: T)
    requires |rest| > 0
    ensures Join([head] + rest, d) == head + [d] + Join(rest, d)
  {
    assert ([head] + rest)[1..] == rest;
  }

  /** Splitting loses nothing. */
  lemma {:induction false} JoinOfPieces<T>(s: seq<T>, d: T, from: nat)
    requires from <= |s|
    ensures Join(Pieces(s, d, from), d) == s[from..]
    decreases |s| - from
  {
    var at := FirstAt(s, d, from);
    if at < |s| {
      JoinOfPieces(s, d, at + 1);
      JoinCons(s[from..at], Pieces(s, d, at + 1), d);
    }
  }

  /** Its pieces are free of the delimiter. */
  lemma {:induction false} PiecesAreClean<T>(s: seq<T>, d: T, from: nat)
    requires from <= |s|
    ensures forall i :: 0 <= i < |Pieces(s, d, from)| ==> d !in Pieces(s, d, from)[i]
    decreases |s| - from
  {
    var at := FirstAt(s, d, from);
    if at < |s| { PiecesAreClean(s, d, at + 1); }
  }

  lemma {:induction false} FirstAtIs<T>(s: seq<T>, d: T, from: nat, at: nat)
    requires from <= at <= |s| && (forall k :: from <= k < at ==> s[k] != d) && (at < |s| ==> s[at] == d)
    ensures FirstAt(s, d, from) == at
    decreases at - from
  {
    if from < at { FirstAtIs(s, d, from + 1, at); }
  }

  /** A joined list starts with its first piece, and goes on with the delimiter and the others. */
  lemma HeadOfJoin<T>(s: seq<T>, from: nat, pieces: seq<seq<T>>, d: T)
    requires from <= |s| && |pieces| > 0 && s[from..] == Join(pieces, d)
    ensures var at := from + |pieces[0]|;
            at <= |s| && s[from..at] == pieces[0]
            && if |pieces| == 1 then at == |s| else at < |s| && s[at] == d && s[at + 1..] == Join(pieces[1..], d)
  {
    var n, rest := |pieces[0]|, s[from..];
    assert s[from..from + n] == rest[..n] == pieces[0];
    if |pieces| > 1 {
      assert s[from + n] == rest[n] == d;
      assert s[from + n + 1..] == rest[n + 1..] == Join(pieces[1..], d);
    }
  }

  /** The first delimiter stands right behind the first piece. */
  lemma HeadIsFirst<T>(s: seq<T>, from: nat, pieces: seq<seq<T>>, d: T)
    requires from <= |s| && |pieces| > 0 && s[from..] == Join(pieces, d) && d !in pieces[0]
    ensures var at := from + |pieces[0]|;
            at <= |s| && FirstAt(s, d, from) == at && s[from..at] == pieces[0] && (at == |s| <==> |pieces| == 1)
  {
    var at := from + |pieces[0]|;
    HeadOfJoin(s, from, pieces, d);
    forall k | from <= k < at ensures s[k] != d {
      assert s[k] == s[from..at][k - from];
    }
    FirstAtIs(s, d, from, at);
  }

  predicate Clean<T(==)>(pieces: seq<seq<T>>, d: T) {
    pieces == [] || (d !in pieces[0] && Clean(pieces[1..], d))
  }

  lemma {:induction false} CleanExactly<T>(pieces: seq<seq<T>>, d: T)
    ensures Clean(pieces, d) <==> forall i :: 0 <= i < |pieces| ==> d !in pieces[i]
  {
    if pieces != [] {
      CleanExactly(pieces[1..], d);
      assert forall i :: 0 < i < |pieces| ==> pieces[i] == pieces[1..][i - 1];
    }
  }

  lemma HeadAndTail<T>(pieces: seq<T>, head: T, tail: seq<T>)
    requires |pieces| > 0 && pieces[0] == head && pieces[1..] == tail
    ensures [head] + tail == pieces
  {
  }

  lemma FirstPiece<T>(s: seq<T>, d: T, from: nat)
    requires from <= |s|
    ensures var at := FirstAt(s, d, from);
            Pieces(s, d, from) == [s[from..at]] + if at == |s| then [] else Pieces(s, d, at + 1)
  {
    var at := FirstAt(s, d, from);
    if at == |s| {
      assert s[..at] == s;
    }
  }

  lemma {:induction false} PiecesOfJoinFrom<T>(s: seq<T>, from: nat, pieces: seq<seq<T>>, d: T)
    requires from <= |s| && |pieces| > 0 && s[from..] == Join(pieces, d) && Clean(pieces, d)
    ensures Pieces(s, d, from) == pieces
    decreases |pieces|
  {
    var at := from + |pieces[0]|;
    HeadIsFirst(s, from, pieces, d);
    FirstPiece(s, d, from);
    HeadAndTail(pieces, s[from..at], pieces[1..]);
    if |pieces| > 1 {
      HeadOfJoin(s, from, pieces, d);
      PiecesOfJoinFrom(s, at + 1, pieces[1..], d);
    }
  }

  /** Splitting is the only answer: a joined list of delimiter-free pieces splits back into itself. */
  lemma PiecesOfJoin<T>(pieces: seq<seq<T>>, d: T)
    requires |pieces| > 0 && forall i :: 0 <= i < |pieces| ==> d !in pieces[i]
    ensures Pieces(Join(pieces, d), d, 0) == pieces
  {
    var s := Join(pieces, d);
    assert s[0..] == s;
    CleanExactly(pieces, d);
    PiecesOfJoinFrom(s, 0, pieces, d);
  }

  lemma {:induction false} PiecesLack<T>(s: seq<T>, d: T, x: T, from: nat)
    requires from <= |s| && x !in s
    ensures forall i :: 0 <= i < |Pieces(s, d, from)| ==> x !in Pieces(s, d, from)[i]
    decreases |s| - from
  {
    var at := FirstAt(s, d, from);
    if at < |s| { PiecesLack(s, d, x, at + 1); }
  }

  lemma {:induction false} PiecesAreCounted<T>(s: seq<T>, d: T, from: nat)
    requires from <= |s|
    ensures |Pieces(s, d, from)| == CountOf(s, d, from) + 1
    decreases |s| - from
  {
    var at := FirstAt(s, d, from);
    CountToFirst(s, d, from);
    if at < |s| { PiecesAreCounted(s, d, at + 1); }
  }

  lemma {:induction false} CountToFirst<T>(s: seq<T>, d: T, from: nat)
    requires from <= |s|
    ensures var at := FirstAt(s, d, from);
            CountOf(s, d, from) == if at == |s| then 0 else 1 + CountOf(s, d, at + 1)
    decreases |s| - from
  {
    if from < |s| && s[from] != d { CountToFirst(s, d, from + 1); }
  }

  /** A text that ends with the delimiter has an empty last piece. */
  lemma {:induction false} LastPieceEmpty<T>(s: seq<T>, d: T, from: nat)
    requires from <= |s| && |s| > 0 && s[|s| - 1] == d
    ensures var ps := Pieces(s, d, from); ps[|ps| - 1] == []
    decreases |s| - from
  {
    var at := FirstAt(s, d, from);
    if at < |s| {
      LastPieceEmpty(s, d, at + 1);
    } else if from < |s| {
      assert false;
    }
  }

  // ---------- misc.c ----------

  /** The array holds the text and its terminator. */
  ghost predicate Holds(a: array<char>, text: string)
    reads a
  {
    a[..] == text + [NUL]
  }

  method NrOf(ch: char, a: array<char>, ghost text: string) returns (count: nat)
    requires Holds(a, text)
    ensures count == CountOf(text, ch, 0)
  {
    count := 0;
    var i := 0;
    while i < a.Length - 1
      invariant 0 <= i <= |text|
      invariant count + CountOf(text, ch, i) == CountOf(text, ch, 0)
    {
      if a[i] == ch {
        count := count + 1;
      }
      i := i + 1;
    }
  }

  /** `astr_locof`: the first place of a character in a stretch, or -1. */
  method LocOf(ch: char, a: array<char>, start: nat, end: nat) returns (at: int)
    requires start <= end <= a.Length
    ensures at == -1 ==> forall k :: start <= k < end ==> a[k] != ch
    ensures at != -1 ==> start <= at < end && a[at] == ch && forall k :: start <= k < at ==> a[k] != ch
  {
    at := start;
    while at < end
      invariant start <= at <= end
      invariant forall k :: start <= k < at ==> a[k] != ch
    {
      if a[at] == ch { return; }
      at := at + 1;
    }
    at := -1;
  }

  /** The C string that starts at an index. */
  method CString(a: array<char>, start: nat) returns (s: string)
    requires start < a.Length && a[a.Length - 1] == NUL
    ensures start + |s| < a.Length && s == a[start..start + |s|]
    ensures a[start + |s|] == NUL && forall k :: start <= k < start + |s| ==> a[k] != NUL
  {
    var end := start;
    while a[end] != NUL
      invariant start <= end < a.Length
      invariant forall k :: start <= k < end ==> a[k] != NUL
      decreases a.Length - end
    {
      end := end + 1;
    }
    s := a[start..end];
  }

  /** The pieces so far, with `left` pieces to come from `iter` on. */
  predicate Splitting(str: string, delim: char, pieces: seq<string>, iter: int, left: int) {
    if left == 0 then Pieces(str, delim, 0) == pieces
    else 0 <= iter <= |str| && CountOf(str, delim, iter) == left - 1
         && Pieces(str, delim, 0) == pieces + Pieces(str, delim, iter)
  }

  lemma AppendIsAssociative<T>(a: seq<T>, b: seq<T>, c: seq<T>)
    ensures a + (b + c) == a + b + c
  {
  }

  lemma SplitStep(str: string, delim: char, pieces: seq<string>, iter: int, left: int)
    requires left > 0 && Splitting(str, delim, pieces, iter, left)
    ensures 0 <= iter <= |str|
    ensures var at := FirstAt(str, delim, iter);
            Splitting(str, delim, pieces + [str[iter..at]], if at == |str| then 0 else at + 1, left - 1)
  {
    CountToFirst(str, delim, iter);
    FirstPiece(str, delim, iter);
    var at := FirstAt(str, delim, iter);
    AppendIsAssociative(pieces, [str[iter..at]], if at == |str| then [] else Pieces(str, delim, at + 1));
  }

  /** `astr_split`: cuts a scratch copy at each delimiter by writing a terminator over it, copies the
      piece out and puts the delimiter back. */
  method Split(str: string, delim: char) returns (pieces: seq<string>)
    requires NUL !in str
    ensures pieces == Pieces(str, delim, 0)
    ensures |pieces| == CountOf(str, delim, 0) + 1
    ensures Join(pieces, delim) == str && forall i :: 0 <= i < |pieces| ==> delim !in pieces[i] && NUL !in pieces[i]
  {
    var sz := |str|;
    var copy := new char[sz + 1](i requires 0 <= i <= |str| => if i == |str| then NUL else str[i]);
    assert Holds(copy, str);
    var nrDelims := NrOf(delim, copy, str);
    var szArr := nrDelims + 1;
    pieces := [];
    var iter, i := 0, 0;
    while i < szArr
      invariant 0 <= i <= szArr && Holds(copy, str)
      invariant Splitting(str, delim, pieces, iter, szArr - i)
    {
      SplitStep(str, delim, pieces, iter, szArr - i);
      var piece, next := Cut(copy, iter, delim, str);
      pieces := pieces + [piece];
      iter := next + 1;
      i := i + 1;
    }
    PiecesAreCounted(str, delim, 0);
    PiecesLack(str, delim, NUL, 0);
    JoinOfPieces(str, delim, 0);
    PiecesAreClean(str, delim, 0);
    assert str[0..] == str;
  }

  /** One turn of the splitting loop: the piece that starts at `iter`, and the place of the delimiter
      behind it or -1; the scratch copy is as it was. */
  method Cut(copy: array<char>, iter: nat, delim: char, ghost str: string) returns (piece: string, next: int)
    requires Holds(copy, str) && NUL !in str && iter <= |str|
    modifies copy
    ensures Holds(copy, str) && NUL !in piece
    ensures var at := FirstAt(str, delim, iter);
            piece == str[iter..at] && next == if at == |str| then -1 else at
  {
    var sz := copy.Length - 1;
    next := LocOf(delim, copy, iter, sz);
    ghost var at := if next == -1 then |str| else next;
    assert forall k :: 0 <= k < |str| ==> copy[k] == str[k];
    FirstAtIs(str, delim, iter, at);
    if next != -1 {
      copy[next] := NUL;
    }
    assert copy[iter..at] == str[iter..at] && copy[at] == NUL;
    piece := CString(copy, iter);
    assert |piece| == at - iter;
    if next != -1 {
      copy[next] := delim;
    }
    assert copy[..] == str + [NUL];
  }
}
