/** Comments and paragraphs of masim's configuration file (masim.c). */
module MasimText {
  import opened AStr

  predicate IsComment(line: string) {
    line != "" && line[0] == '#'
  }

  /** The text of the terminated lines that are not comments: all pieces but the last. */
  function Kept(lines: seq<string>): string {
    if |lines| <= 1 then ""
    else (if IsComment(lines[0]) then "" else lines[0] + "\n") + Kept(lines[1..])
  }

  /** The terminated lines that are not comments, in order. */
  function KeptLines(lines: seq<string>): seq<string> {
    if |lines| <= 1 then []
    else (if IsComment(lines[0]) then [] else [lines[0]]) + KeptLines(lines[1..])
  }

  predicate Ascending(at: seq<nat>) {
    forall i, j :: 0 <= i < j < |at| ==> at[i] < at[j]
  }

  /** The positions moved up by one. */
  function Moved(at: seq<nat>): (r: seq<nat>)
    ensures |r| == |at| && forall i :: 0 <= i < |r| ==> r[i] == at[i] + 1
  {
    seq(|at|, i requires 0 <= i < |at| => at[i] + 1)
  }

  lemma MovedHolds(at: seq<nat>, k: nat)
    ensures k in Moved(at) <==> k > 0 && k - 1 in at
  {
    if k > 0 && k - 1 in at {
      var i :| 0 <= i < |at| && at[i] == k - 1;
      assert Moved(at)[i] == k;
    }
  }

  /** The positions of the kept lines. */
  function KeptAt(lines: seq<string>): seq<nat> {
    if |lines| <= 1 then []
    else (if IsComment(lines[0]) then [] else [0]) + Moved(KeptAt(lines[1..]))
  }

  lemma {:induction false} KeptAtPicks(lines: seq<string>)
    ensures |KeptAt(lines)| == |KeptLines(lines)| && Ascending(KeptAt(lines))
    ensures forall i :: 0 <= i < |KeptAt(lines)| ==>
              KeptAt(lines)[i] < |lines| - 1 && KeptLines(lines)[i] == lines[KeptAt(lines)[i]]
  {
    if |lines| > 1 {
      KeptAtPicks(lines[1..]);
      var rest, kept := KeptAt(lines[1..]), KeptLines(lines[1..]);
      forall i | 0 <= i < |rest| ensures rest[i] + 1 < |lines| - 1 && kept[i] == lines[rest[i] + 1] {
        assert lines[1..][rest[i]] == lines[rest[i] + 1];
      }
    }
  }

  lemma {:induction false} KeptAtExactly(lines: seq<string>, k: nat)
    requires k < |lines| - 1
    ensures k in KeptAt(lines) <==> !(lines[k] != "" && lines[k][0] == '#')
  {
    MovedHolds(KeptAt(lines[1..]), k);
    if k > 0 { KeptAtExactly(lines[1..], k - 1); }
  }

  /** Which lines are kept: in order, exactly the terminated ones that do not start with '#'. */
  lemma KeptPositions(lines: seq<string>) returns (at: seq<nat>)
    ensures |at| == |KeptLines(lines)| && Ascending(at)
    ensures forall i :: 0 <= i < |at| ==> at[i] < |lines| - 1 && KeptLines(lines)[i] == lines[at[i]]
    ensures forall k: nat :: k < |lines| - 1 ==> (k in at <==> !(lines[k] != "" && lines[k][0] == '#'))
  {
    at := KeptAt(lines);
    KeptAtPicks(lines);
    forall k: nat | k < |lines| - 1 ensures k in at <==> !(lines[k] != "" && lines[k][0] == '#') {
      KeptAtExactly(lines, k);
    }
  }

  lemma {:induction false} KeptIsJoined(lines: seq<string>)
    ensures Join(KeptLines(lines) + [""], '\n') == Kept(lines)
    ensures forall i :: 0 <= i < |KeptLines(lines)| ==> KeptLines(lines)[i] in lines && !IsComment(KeptLines(lines)[i])
  {
    if |lines| > 1 {
      KeptIsJoined(lines[1..]);
      var rest := KeptLines(lines[1..]) + [""];
      if !IsComment(lines[0]) {
        assert KeptLines(lines) + [""] == [lines[0]] + rest;
        assert ([lines[0]] + rest)[1..] == rest;
      } else {
        assert KeptLines(lines) == KeptLines(lines[1..]);
      }
    }
  }

  /** The lines of the text without comments are the kept lines, in order and nothing else; removing
      comments again changes nothing. */
  lemma CommentsAreGone(orig: string)
    ensures var kept := KeptLines(Pieces(orig, '\n', 0));
            var content := Kept(Pieces(orig, '\n', 0));
            Pieces(content, '\n', 0) == kept + [""] && Kept(Pieces(content, '\n', 0)) == content
  {
    var lines := Pieces(orig, '\n', 0);
    var kept := KeptLines(lines);
    JoinOfPieces(orig, '\n', 0);
    PiecesAreClean(orig, '\n', 0);
    KeptIsJoined(lines);
    PiecesOfJoin(kept + [""], '\n');
    NoCommentsKeepAll(kept);
    KeptIsJoined(kept + [""]);
  }

  lemma {:induction false} NoCommentsKeepAll(kept: seq<string>)
    requires forall i :: 0 <= i < |kept| ==> !IsComment(kept[i])
    ensures KeptLines(kept + [""]) == kept
  {
    if kept != [] {
      NoCommentsKeepAll(kept[1..]);
      assert (kept + [""])[1..] == kept[1..] + [""];
    }
  }

  lemma {:induction false} KeptIsCleanText(lines: seq<string>)
    requires forall i :: 0 <= i < |lines| ==> NUL !in lines[i]
    ensures NUL !in Kept(lines)
    ensures Kept(lines) != "" ==> Kept(lines)[|Kept(lines)| - 1] == '\n'
  {
    if |lines| > 1 { KeptIsCleanText(lines[1..]); }
  }

  method LenLine(str: string, start: nat) returns (len: int)
    requires start <= |str|
    ensures len == if FirstAt(str, '\n', start) == |str| then -1 else FirstAt(str, '\n', start) - start
  {
    var i := start;
    while i < |str| && str[i] != '\n'
      invariant start <= i <= |str|
      invariant forall k :: start <= k < i ==> str[k] != '\n'
    {
      i := i + 1;
    }
    FirstAtIs(str, '\n', start, i);
    len := if i == |str| then -1 else i - start;
  }

  function KeptFrom(orig: string, offset: nat): string
    requires offset <= |orig|
  {
    Kept(Pieces(orig, '\n', offset))
  }

  lemma KeptStep(orig: string, offset: nat, before: string)
    requires offset <= |orig| && FirstAt(orig, '\n', offset) < |orig|
    ensures var at := FirstAt(orig, '\n', offset);
            before + KeptFrom(orig, offset)
            == (if orig[offset] == '#' then before else before + orig[offset..at + 1]) + KeptFrom(orig, at + 1)
  {
    var at := FirstAt(orig, '\n', offset);
    var ps := Pieces(orig, '\n', offset);
    assert ps[1..] == Pieces(orig, '\n', at + 1);
    assert orig[offset..at + 1] == ps[0] + "\n";
    if offset < at {
      assert ps[0][0] == orig[offset];
    } else {
      assert ps[0] == "" && orig[offset] == '\n';
    }
  }

  /** `rm_comments`: copies the text line by line without the lines that start with '#'; what follows
      the last line end is not copied. */
  method RmComments(orig: string) returns (result: string)
    ensures result == Kept(Pieces(orig, '\n', 0))
  {
    result := "";
    var offset := 0;
    while true
      invariant offset <= |orig|
      invariant result + KeptFrom(orig, offset) == KeptFrom(orig, 0)
      decreases |orig| - offset
    {
      var len := LenLine(orig, offset);
      if len == -1 {
        break;
      }
      KeptStep(orig, offset, result);
      if orig[offset] != '#' {
        result := result + orig[offset..offset + len + 1];
      }
      offset := offset + len + 1;
    }
  }

  predicate IsBreak(s: string, i: nat) {
    i + 1 < |s| && s[i] == '\n' && s[i + 1] == '\n'
  }

  /** `paragraph_len`: where the first empty line is, or -1. */
  method ParagraphLen(s: string) returns (len: int)
    ensures if len == -1 then forall i: nat :: !IsBreak(s, i)
            else len >= 0 && IsBreak(s, len) && forall i: nat :: i < len ==> !IsBreak(s, i)
  {
    len := 0;
    while len < |s| - 1
      invariant 0 <= len && forall i: nat :: i < len ==> !IsBreak(s, i)
    {
      if s[len] == '\n' && s[len + 1] == '\n' {
        return;
      }
      len := len + 1;
    }
    len := -1;
  }
}
