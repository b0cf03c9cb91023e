/** Reading masim's configuration: the regions paragraph and the phases (masim.c). */
module MasimConfig {
  import opened AStr
  import opened MasimText

  datatype RwMode = ReadOnly | WriteOnly | ReadWrite
  datatype MRegion = MRegion(name: string, sz: nat)
  datatype Pattern = Pattern(region: nat, randomAccess: int, stride: nat, probability: int, mode: RwMode)
  datatype Share = Share(pattern: Pattern, probStart: int)
  datatype Phase = Phase(name: string, timeMs: nat, patterns: seq<Share>, totalProbability: int)

  /** The reasons for which the program exits. */
  datatype ConfigError =
    | WrongFileFormat
    | WrongRegion(line: string)
    | NotEnoughLines
    | WrongNumberOfLines(n: nat)
    | WrongNumberOfFields(line: string)
    | NoSuchRegion(name: string)
    | WrongMode(text: string)

  datatype Result<T> = Ok(value: T) | Err(error: ConfigError)

  // ---------- the C library's conversions ----------

  predicate IsSpace(c: char) {
    c == ' ' || '\t' <= c <= '\r'
  }

  function SkipSpaces(s: string): string {
    if s != "" && IsSpace(s[0]) then SkipSpaces(s[1..]) else s
  }

  function Token(s: string): string {
    if s == "" || IsSpace(s[0]) then "" else [s[0]] + Token(s[1..])
  }

  function Digits(s: string, value: nat): nat {
    if s != "" && '0' <= s[0] <= '9' then Digits(s[1..], value * 10 + (s[0] - '0') as nat) else value
  }

  function Atoi(s: string): int {
    var t := SkipSpaces(s);
    if t != "" && t[0] == '-' then -(Digits(t[1..], 0) as int)
    else if t != "" && t[0] == '+' then Digits(t[1..], 0)
    else Digits(t, 0)
  }

  const SIZE_T := 0x1_0000_0000_0000_0000
  const UNSIGNED := 0x1_0000_0000

  /** `parse_rwmode`: the first two letters of the first word decide. */
  function ParseRwMode(input: string): Result<RwMode> {
    var word := Token(SkipSpaces(input));
    if "ro" <= word then Ok(ReadOnly)
    else if "wo" <= word then Ok(WriteOnly)
    else if "rw" <= word then Ok(ReadWrite)
    else Err(WrongMode(word))
  }

  // ---------- regions ----------

  function RegionOf(line: string): Result<MRegion> {
    var fields := Pieces(line, ',', 0);
    if |fields| != 2 then Err(WrongRegion(line)) else Ok(MRegion(fields[0], Atoi(fields[1]) % SIZE_T))
  }

  predicate RegionsFrom(lines: seq<string>, regions: seq<MRegion>) {
    |regions| == |lines| && forall i :: 0 <= i < |lines| ==> RegionOf(lines[i]) == Ok(regions[i])
  }

  predicate FirstWrongRegion(lines: seq<string>, at: nat, e: ConfigError) {
    at < |lines| && RegionOf(lines[at]) == Err(e) && forall i :: 0 <= i < at ==> RegionOf(lines[i]).Ok?
  }

  method ParseRegions(str: string) returns (r: Result<seq<MRegion>>)
    requires NUL !in str
    ensures r.Ok? ==> RegionsFrom(Pieces(str, '\n', 0), r.value)
    ensures r.Err? ==> exists at :: FirstWrongRegion(Pieces(str, '\n', 0), at, r.error)
  {
    var lines := Split(str, '\n');
    var regions := [];
    var i := 0;
    while i < |lines|
      invariant 0 <= i <= |lines| && |regions| == i
      invariant forall k :: 0 <= k < i ==> RegionOf(lines[k]) == Ok(regions[k])
    {
      var fields := Split(lines[i], ',');
      if |fields| != 2 {
        assert FirstWrongRegion(lines, i, WrongRegion(lines[i]));
        return Err(WrongRegion(lines[i]));
      }
      regions := regions + [MRegion(fields[0], Atoi(fields[1]) % SIZE_T)];
      i := i + 1;
    }
    r := Ok(regions);
  }

  // ---------- one phase ----------

  /** The last region of that name, or -1. */
  function RegionNamed(name: string, regions: seq<MRegion>, upTo: nat): (at: int)
    requires upTo <= |regions|
    ensures -1 <= at < upTo
    ensures at >= 0 ==> regions[at].name == name
    ensures forall k :: at < k < upTo ==> regions[k].name != name
  {
    if upTo == 0 then -1
    else if regions[upTo - 1].name == name then upTo - 1
    else RegionNamed(name, regions, upTo - 1)
  }

  /** What one pattern line means. */
  function PatternOf(line: string, regions: seq<MRegion>, defaultMode: RwMode): Result<Pattern> {
    var fields := Pieces(line, ',', 0);
    if |fields| != 4 && |fields| != 5 then Err(WrongNumberOfFields(line)) else
    var region := RegionNamed(fields[0], regions, |regions|);
    if region == -1 then Err(NoSuchRegion(fields[0])) else
    var mode := if |fields| == 5 then ParseRwMode(fields[4]) else Ok(defaultMode);
    if mode.Err? then Err(mode.error) else
    Ok(Pattern(region, Atoi(fields[1]), Atoi(fields[2]) % SIZE_T, Atoi(fields[3]), mode.value))
  }

  function SumProbability(patterns: seq<Share>, upTo: nat): int
    requires upTo <= |patterns|
  {
    if upTo == 0 then 0 else SumProbability(patterns, upTo - 1) + patterns[upTo - 1].pattern.probability
  }

  /** The patterns' shares of the draw follow one another from 0 on. */
  predicate SharesFollow(p: Phase) {
    && p.totalProbability == SumProbability(p.patterns, |p.patterns|)
    && forall j :: 0 <= j < |p.patterns| ==> p.patterns[j].probStart == SumProbability(p.patterns, j)
  }

  lemma PatternsFromStep(lines: seq<string>, j: nat, regions: seq<MRegion>, defaultMode: RwMode,
                         patterns: seq<Share>, more: seq<Share>)
    requires 2 <= j < |lines| && |patterns| == j - 2 && |more| == j - 1 && more[..j - 2] == patterns
    requires PatternsFrom(lines, j, regions, defaultMode, patterns)
    requires PatternOf(lines[j], regions, defaultMode) == Ok(more[j - 2].pattern)
    ensures PatternsFrom(lines, j + 1, regions, defaultMode, more)
  {
    forall k | 2 <= k < j ensures PatternOf(lines[k], regions, defaultMode) == Ok(more[k - 2].pattern) {
      assert more[k - 2] == more[..j - 2][k - 2];
    }
  }

  /** A phase is its name line, its time line and one pattern for each further line. */
  predicate PhaseFrom(lines: seq<string>, regions: seq<MRegion>, defaultMode: RwMode, p: Phase) {
    && |lines| >= 3
    && p.name == lines[0] && p.timeMs == Atoi(lines[1]) % UNSIGNED
    && |p.patterns| == |lines| - 2 && SharesFollow(p)
    && PatternsFrom(lines, |lines|, regions, defaultMode, p.patterns)
  }

  /** The lines from number 2 on each give one pattern. */
  predicate PatternsFrom(lines: seq<string>, upTo: nat, regions: seq<MRegion>, defaultMode: RwMode, patterns: seq<Share>)
    requires 2 <= upTo <= |lines| && |patterns| == upTo - 2
  {
    forall j :: 2 <= j < upTo ==> PatternOf(lines[j], regions, defaultMode) == Ok(patterns[j - 2].pattern)
  }

  predicate FirstWrongPattern(lines: seq<string>, regions: seq<MRegion>, defaultMode: RwMode, at: nat, e: ConfigError) {
    && 2 <= at < |lines| && PatternOf(lines[at], regions, defaultMode) == Err(e)
    && forall j :: 2 <= j < at ==> PatternOf(lines[j], regions, defaultMode).Ok?
  }

  /** The paragraph's lines do not make a phase, for that reason. */
  ghost predicate NotAPhase(lines: seq<string>, regions: seq<MRegion>, defaultMode: RwMode, e: ConfigError) {
    if |lines| < 3 then e == WrongNumberOfLines(|lines|)
    else exists at :: FirstWrongPattern(lines, regions, defaultMode, at, e)
  }

  method FindRegion(name: string, regions: seq<MRegion>) returns (found: int)
    ensures found == RegionNamed(name, regions, |regions|)
  {
    found := -1;
    for k := 0 to |regions|
      invariant found == RegionNamed(name, regions, k)
    {
      if name == regions[k].name {
        found := k;
      }
    }
  }

  method ParsePattern(line: string, regions: seq<MRegion>, defaultMode: RwMode) returns (r: Result<Pattern>)
    requires NUL !in line
    ensures r == PatternOf(line, regions, defaultMode)
  {
    var fields := Split(line, ',');
    if |fields| != 4 && |fields| != 5 {
      return Err(WrongNumberOfFields(line));
    }
    var region := FindRegion(fields[0], regions);
    if region == -1 {
      return Err(NoSuchRegion(fields[0]));
    }
    var mode := Ok(defaultMode);
    if |fields| == 5 {
      mode := ParseRwMode(fields[4]);
    }
    if mode.Err? {
      return Err(mode.error);
    }
    r := Ok(Pattern(region, Atoi(fields[1]), Atoi(fields[2]) % SIZE_T, Atoi(fields[3]), mode.value));
  }

  lemma {:induction false} SumAppended(patterns: seq<Share>, extra: Share, upTo: nat)
    requires upTo <= |patterns|
    ensures SumProbability(patterns + [extra], upTo) == SumProbability(patterns, upTo)
  {
    if upTo > 0 { SumAppended(patterns, extra, upTo - 1); }
  }

  /** The next pattern's share starts where the shares so far end. */
  function WithPattern(p: Phase, q: Pattern): (r: Phase)
    requires SharesFollow(p)
    ensures SharesFollow(r)
    ensures r.name == p.name && r.timeMs == p.timeMs && |r.patterns| == |p.patterns| + 1
    ensures r.patterns[..|p.patterns|] == p.patterns && r.patterns[|p.patterns|].pattern == q
  {
    var extra := Share(q, p.totalProbability);
    AppendKeepsSums(p.patterns, extra);
    p.(patterns := p.patterns + [extra], totalProbability := p.totalProbability + q.probability)
  }

  lemma AppendKeepsSums(patterns: seq<Share>, extra: Share)
    ensures forall j :: 0 <= j <= |patterns| ==>
      SumProbability(patterns + [extra], j) == SumProbability(patterns, j)
  {
    forall j | 0 <= j <= |patterns| ensures SumProbability(patterns + [extra], j) == SumProbability(patterns, j) {
      SumAppended(patterns, extra, j);
    }
  }

  lemma {:induction false} PatternsOrReason(lines: seq<string>, j: nat, regions: seq<MRegion>, defaultMode: RwMode)
    returns (p: Phase, at: nat, e: ConfigError)
    requires 2 <= j <= |lines|
    ensures || FirstWrongPattern(lines, regions, defaultMode, at, e)
            || (&& p.name == lines[0] && p.timeMs == Atoi(lines[1]) % UNSIGNED
                && |p.patterns| == j - 2 && SharesFollow(p) && PatternsFrom(lines, j, regions, defaultMode, p.patterns))
  {
    if j == 2 {
      p, at, e := Phase(lines[0], Atoi(lines[1]) % UNSIGNED, [], 0), 0, WrongFileFormat;
    } else {
      p, at, e := PatternsOrReason(lines, j - 1, regions, defaultMode);
      if !FirstWrongPattern(lines, regions, defaultMode, at, e) {
        var q := PatternOf(lines[j - 1], regions, defaultMode);
        if q.Ok? {
          var more := WithPattern(p, q.value);
          PatternsFromStep(lines, j - 1, regions, defaultMode, p.patterns, more.patterns);
          p := more;
        } else {
          at, e := j - 1, q.error;
        }
      }
    }
  }

  lemma PhaseExcludesReason(lines: seq<string>, regions: seq<MRegion>, defaultMode: RwMode, p: Phase, e: ConfigError)
    requires PhaseFrom(lines, regions, defaultMode, p)
    ensures !NotAPhase(lines, regions, defaultMode, e)
  {
    forall at: nat ensures !FirstWrongPattern(lines, regions, defaultMode, at, e) {
      if 2 <= at < |lines| { assert PatternOf(lines[at], regions, defaultMode).Ok?; }
    }
  }

  /** A paragraph makes a phase exactly if there is no reason against it. */
  lemma PhaseOrReason(lines: seq<string>, regions: seq<MRegion>, defaultMode: RwMode)
    ensures (exists p :: PhaseFrom(lines, regions, defaultMode, p))
        <==> !(exists e :: NotAPhase(lines, regions, defaultMode, e))
  {
    if |lines| < 3 {
      assert NotAPhase(lines, regions, defaultMode, WrongNumberOfLines(|lines|));
    } else {
      var p, at, e := PatternsOrReason(lines, |lines|, regions, defaultMode);
      assert PhaseFrom(lines, regions, defaultMode, p) || NotAPhase(lines, regions, defaultMode, e);
    }
    forall p, e | PhaseFrom(lines, regions, defaultMode, p) ensures !NotAPhase(lines, regions, defaultMode, e) {
      PhaseExcludesReason(lines, regions, defaultMode, p, e);
    }
  }

  method ParsePhase(lines: seq<string>, regions: seq<MRegion>, defaultMode: RwMode) returns (r: Result<Phase>)
    requires forall i :: 0 <= i < |lines| ==> NUL !in lines[i]
    ensures r.Ok? ==> PhaseFrom(lines, regions, defaultMode, r.value) && |r.value.patterns| >= 1
    ensures r.Err? ==> NotAPhase(lines, regions, defaultMode, r.error)
    ensures |lines| < 3 <==> r == Err(WrongNumberOfLines(|lines|))
  {
    if |lines| < 3 {
      return Err(WrongNumberOfLines(|lines|));
    }
    var p := Phase(lines[0], Atoi(lines[1]) % UNSIGNED, [], 0);
    var j := 2;
    while j < |lines|
      invariant 2 <= j <= |lines| && |p.patterns| == j - 2 && SharesFollow(p)
      invariant p.name == lines[0] && p.timeMs == Atoi(lines[1]) % UNSIGNED
      invariant PatternsFrom(lines, j, regions, defaultMode, p.patterns)
    {
      var a := ParsePattern(lines[j], regions, defaultMode);
      if a.Err? {
        assert FirstWrongPattern(lines, regions, defaultMode, j, a.error);
        return Err(a.error);
      }
      ghost var patterns := p.patterns;
      p := WithPattern(p, a.value);
      PatternsFromStep(lines, j, regions, defaultMode, patterns, p.patterns);
      j := j + 1;
    }
    r := Ok(p);
  }

  // ---------- all phases ----------

  /** The first paragraphs are phases. */
  predicate PhasesUpTo(paragraphs: seq<seq<string>>, regions: seq<MRegion>, defaultMode: RwMode, phases: seq<Phase>)
  {
    |phases| <= |paragraphs| && forall i :: 0 <= i < |phases| ==> PhaseFrom(paragraphs[i], regions, defaultMode, phases[i])
  }

  /** Phase i is made of exactly the lines between empty lines i - 1 and i. */
  predicate PhasesFrom(lines: seq<string>, regions: seq<MRegion>, defaultMode: RwMode, phases: seq<Phase>) {
    var paragraphs := Pieces(lines, "", 0);
    |phases| == |paragraphs| - 1 && PhasesUpTo(paragraphs, regions, defaultMode, phases)
  }

  /** The phases before the first paragraph that is not one; the lines behind the last empty line are
      not looked at. */
  ghost predicate FirstWrongPhase(
    lines: seq<string>, regions: seq<MRegion>, defaultMode: RwMode, good: seq<Phase>, e: ConfigError) {
    var paragraphs := Pieces(lines, "", 0);
    && |good| < |paragraphs| - 1 && PhasesUpTo(paragraphs, regions, defaultMode, good)
    && NotAPhase(paragraphs[|good|], regions, defaultMode, e)
  }

  ghost predicate NotPhases(lines: seq<string>, regions: seq<MRegion>, defaultMode: RwMode, e: ConfigError) {
    if |lines| < 4 then e == NotEnoughLines
    else exists good :: FirstWrongPhase(lines, regions, defaultMode, good, e)
  }

  /** The cursor stands at the start of paragraph i, with as many empty lines ahead as phases to parse. */
  predicate AtParagraph(lines: seq<string>, start: nat, i: nat) {
    && start <= |lines| && i < |Pieces(lines, "", 0)|
    && Pieces(lines, "", 0)[i..] == Pieces(lines, "", start)
    && CountOf(lines, "", start) == |Pieces(lines, "", 0)| - 1 - i
  }

  lemma NextParagraph(lines: seq<string>, start: nat, i: nat)
    requires AtParagraph(lines, start, i) && i + 1 < |Pieces(lines, "", 0)|
    ensures var at := FirstAt(lines, "", start);
            at < |lines| && Pieces(lines, "", 0)[i] == lines[start..at] && AtParagraph(lines, at + 1, i + 1)
  {
    CountToFirst(lines, "", start);
    var rest := Pieces(lines, "", 0)[i..];
    assert Pieces(lines, "", 0)[i] == rest[0];
    assert Pieces(lines, "", 0)[i + 1..] == rest[1..];
  }

  method CountEmpty(lines: seq<string>) returns (n: nat)
    ensures n == CountOf(lines, "", 0)
  {
    n := 0;
    var i := 0;
    while i < |lines|
      invariant 0 <= i <= |lines|
      invariant n + CountOf(lines, "", i) == CountOf(lines, "", 0)
    {
      if lines[i] == "" {
        n := n + 1;
      }
      i := i + 1;
    }
  }

  /** The lines before the next empty line, which there is. */
  method ParagraphLines(lines: seq<string>, start: nat) returns (n: nat)
    requires start <= |lines| && FirstAt(lines, "", start) < |lines|
    ensures start + n == FirstAt(lines, "", start)
  {
    n := 0;
    while lines[start + n] != ""
      invariant start + n <= FirstAt(lines, "", start)
      decreases |lines| - start - n
    {
      n := n + 1;
    }
  }

  lemma OnePhaseMore(
    lines: seq<string>, regions: seq<MRegion>, defaultMode: RwMode, phases: seq<Phase>, p: Phase)
    requires PhasesUpTo(Pieces(lines, "", 0), regions, defaultMode, phases)
    requires |phases| < |Pieces(lines, "", 0)|
    requires PhaseFrom(Pieces(lines, "", 0)[|phases|], regions, defaultMode, p)
    ensures PhasesUpTo(Pieces(lines, "", 0), regions, defaultMode, phases + [p])
  {
  }

  /** One turn of the phase loop: the phase of the paragraph under the cursor. */
  method NextPhase(lines: seq<string>, start: nat, ghost i: nat, regions: seq<MRegion>, defaultMode: RwMode)
    returns (p: Result<Phase>, next: nat)
    requires forall i :: 0 <= i < |lines| ==> NUL !in lines[i]
    requires AtParagraph(lines, start, i) && i + 1 < |Pieces(lines, "", 0)|
    ensures AtParagraph(lines, next, i + 1)
    ensures p.Ok? ==> PhaseFrom(Pieces(lines, "", 0)[i], regions, defaultMode, p.value)
    ensures p.Err? ==> NotAPhase(Pieces(lines, "", 0)[i], regions, defaultMode, p.error)
  {
    NextParagraph(lines, start, i);
    var n := ParagraphLines(lines, start);
    p := ParsePhase(lines[start..start + n], regions, defaultMode);
    next := start + n + 1;
  }

  method ParseParagraphs(lines: seq<string>, nrPhases: nat, regions: seq<MRegion>, defaultMode: RwMode)
    returns (r: Result<seq<Phase>>)
    requires forall i :: 0 <= i < |lines| ==> NUL !in lines[i]
    requires nrPhases == |Pieces(lines, "", 0)| - 1
    ensures r.Ok? ==> PhasesFrom(lines, regions, defaultMode, r.value)
    ensures r.Err? ==> exists good :: FirstWrongPhase(lines, regions, defaultMode, good, r.error)
  {
    PiecesAreCounted(lines, "", 0);
    var phases := [];
    var start := 0;
    while |phases| < nrPhases
      invariant start >= 0 && |phases| <= nrPhases && AtParagraph(lines, start, |phases|)
      invariant PhasesUpTo(Pieces(lines, "", 0), regions, defaultMode, phases)
      decreases nrPhases - |phases|
    {
      var p, next := NextPhase(lines, start, |phases|, regions, defaultMode);
      if p.Err? {
        assert FirstWrongPhase(lines, regions, defaultMode, phases, p.error);
        return Err(p.error);
      }
      OnePhaseMore(lines, regions, defaultMode, phases, p.value);
      phases := phases + [p.value];
      start := next;
    }
    r := Ok(phases);
  }

  /** `parse_phases`: as many phases as there are empty lines. It never looks past the last line. */
  method ParsePhases(str: string, regions: seq<MRegion>, defaultMode: RwMode) returns (r: Result<seq<Phase>>)
    requires NUL !in str
    ensures r.Ok? ==> |Pieces(str, '\n', 0)| >= 4 && PhasesFrom(Pieces(str, '\n', 0), regions, defaultMode, r.value)
    ensures r.Err? ==> NotPhases(Pieces(str, '\n', 0), regions, defaultMode, r.error)
    ensures |Pieces(str, '\n', 0)| < 4 ==> r == Err(NotEnoughLines)
  {
    var lines := Split(str, '\n');
    if |lines| < 4 {
      return Err(NotEnoughLines);
    }
    var nrPhases := CountEmpty(lines);
    PiecesAreCounted(lines, "", 0);
    r := ParseParagraphs(lines, nrPhases, regions, defaultMode);
  }

  // ---------- the whole file ----------

  /** The text up to the first empty line, and the text behind it. */
  predicate SplitsAt(content: string, head: string, tail: string) {
    content == head + "\n\n" + tail && forall i: nat :: i < |head| ==> !IsBreak(content, i)
  }

  lemma CutAtBreak(content: string, len: nat)
    requires IsBreak(content, len) && forall i: nat :: i < len ==> !IsBreak(content, i)
    ensures SplitsAt(content, content[..len], content[len + 2..])
  {
    assert content[len..len + 2] == "\n\n";
    assert content == content[..len] + content[len..len + 2] + content[len + 2..];
  }

  predicate ConfigFrom(head: string, tail: string, regions: seq<MRegion>, phases: seq<Phase>, defaultMode: RwMode) {
    && RegionsFrom(Pieces(head, '\n', 0), regions)
    && PhasesFrom(Pieces(tail, '\n', 0), regions, defaultMode, phases)
  }

  /** The regions are refused for that reason or, behind good regions, the phases are. */
  ghost predicate ConfigRefused(head: string, tail: string, regions: seq<MRegion>, defaultMode: RwMode, e: ConfigError) {
    || (exists at :: FirstWrongRegion(Pieces(head, '\n', 0), at, e))
    || (RegionsFrom(Pieces(head, '\n', 0), regions) && NotPhases(Pieces(tail, '\n', 0), regions, defaultMode, e))
  }

  /** A buffer read as a C string ends before its first terminator. */
  function UpToNul(s: string): (r: string)
    ensures NUL !in r && r <= s
    ensures NUL !in s ==> r == s
  {
    s[..FirstAt(s, NUL, 0)]
  }

  /** The text that is parsed: without comments, up to its terminator. */
  method ReadText(file: string) returns (content: string)
    ensures content == UpToNul(Kept(Pieces(file, '\n', 0))) && NUL !in content
    ensures NUL !in file && content != "" ==> content[|content| - 1] == '\n'
  {
    content := RmComments(file);
    content := UpToNul(content);
    if NUL !in file { CleanContent(file); }
  }

  method ReadConfig(file: string, defaultMode: RwMode)
    returns (r: Result<(seq<MRegion>, seq<Phase>)>, head: string, tail: string)
    ensures var content := UpToNul(Kept(Pieces(file, '\n', 0)));
            if r == Err(WrongFileFormat) then forall i: nat :: !IsBreak(content, i)
            else SplitsAt(content, head, tail)
    ensures NUL !in file && tail != "" ==> tail[|tail| - 1] == '\n'
    ensures r.Ok? ==> ConfigFrom(head, tail, r.value.0, r.value.1, defaultMode)
    ensures r.Err? && r != Err(WrongFileFormat) ==> exists regions :: ConfigRefused(head, tail, regions, defaultMode, r.error)
  {
    var content := ReadText(file);
    head, tail := "", "";
    var len := ParagraphLen(content);
    if len == -1 {
      r := Err(WrongFileFormat);
      return;
    }
    head, tail := content[..len], content[len + 2..];
    CutAtBreak(content, len);
    r := ParseBoth(head, tail, defaultMode);
  }

  method ParseBoth(head: string, tail: string, defaultMode: RwMode) returns (r: Result<(seq<MRegion>, seq<Phase>)>)
    requires NUL !in head && NUL !in tail
    ensures r.Ok? ==> ConfigFrom(head, tail, r.value.0, r.value.1, defaultMode)
    ensures r.Err? ==> r != Err(WrongFileFormat)
    ensures r.Err? ==> exists regions :: ConfigRefused(head, tail, regions, defaultMode, r.error)
  {
    var regions := ParseRegions(head);
    if regions.Err? {
      assert ConfigRefused(head, tail, [], defaultMode, regions.error);
      return Err(regions.error);
    }
    var phases := ParsePhases(tail, regions.value, defaultMode);
    if phases.Err? {
      assert ConfigRefused(head, tail, regions.value, defaultMode, phases.error);
      return Err(phases.error);
    }
    r := Ok((regions.value, phases.value));
  }

  lemma CleanContent(file: string)
    requires NUL !in file
    ensures var content := Kept(Pieces(file, '\n', 0));
            NUL !in content && (content != "" ==> content[|content| - 1] == '\n')
  {
    PiecesLack(file, '\n', NUL, 0);
    KeptIsCleanText(Pieces(file, '\n', 0));
  }

  /** No line after the regions is lost: since comment removal ends the text with a line end, the lines
      are the phases' paragraphs, each closed by one empty line. */
  lemma EveryLineIsInAPhase(tail: string, regions: seq<MRegion>, phases: seq<Phase>, defaultMode: RwMode)
    requires PhasesFrom(Pieces(tail, '\n', 0), regions, defaultMode, phases)
    requires tail != "" && tail[|tail| - 1] == '\n'
    ensures var lines := Pieces(tail, '\n', 0);
            |phases| < |Pieces(lines, "", 0)| && Join(Pieces(lines, "", 0)[..|phases|] + [[]], "") == lines
  {
    ClosedParagraphs(tail);
  }

  lemma ClosedParagraphs(text: string)
    requires text != "" && text[|text| - 1] == '\n'
    ensures var lines := Pieces(text, '\n', 0);
            var paragraphs := Pieces(lines, "", 0);
            Join(paragraphs[..|paragraphs| - 1] + [[]], "") == lines
  {
    LastPieceEmpty(text, '\n', 0);
    var lines := Pieces(text, '\n', 0);
    LastPieceEmpty(lines, "", 0);
    JoinOfPieces(lines, "", 0);
    var paragraphs := Pieces(lines, "", 0);
    assert paragraphs == paragraphs[..|paragraphs| - 1] + [[]];
    assert lines[0..] == lines;
  }
}
