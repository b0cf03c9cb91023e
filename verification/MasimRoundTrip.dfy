/** masim's configuration written out and read back: what each field stands for. */
module MasimRoundTrip {
  import opened AStr
  import opened MasimText
  import opened MasimConfig

  // ---------- numbers ----------

  function Digit(d: nat): char
    requires d < 10
  {
    '0' + d as char
  }

  function Decimal(n: nat): (s: string)
    ensures |s| > 0
  {
    if n < 10 then [Digit(n)] else Decimal(n / 10) + [Digit(n % 10)]
  }

  function Signed(z: int): string {
    if z < 0 then "-" + Decimal(-z) else Decimal(z)
  }

  predicate AllDigits(s: string) {
    forall i :: 0 <= i < |s| ==> '0' <= s[i] <= '9'
  }

  predicate NoDigitFirst(s: string) {
    s == "" || !('0' <= s[0] <= '9')
  }

  lemma {:induction false} DecimalIsDigits(n: nat)
    ensures AllDigits(Decimal(n))
  {
    if n >= 10 { DecimalIsDigits(n / 10); }
  }

  lemma {:induction false} DigitsAppend(s: string, c: char, value: nat, rest: string)
    requires AllDigits(s) && '0' <= c <= '9' && NoDigitFirst(rest)
    ensures Digits(s + [c] + rest, value) == Digits(s, value) * 10 + (c - '0') as nat
  {
    if s == "" {
      assert [c] + rest == s + [c] + rest && ([c] + rest)[1..] == rest;
    } else {
      assert (s + [c] + rest)[1..] == s[1..] + [c] + rest;
      DigitsAppend(s[1..], c, value * 10 + (s[0] - '0') as nat, rest);
    }
  }

  lemma {:induction false} DigitsOfDecimal(n: nat, rest: string)
    requires NoDigitFirst(rest)
    ensures Digits(Decimal(n) + rest, 0) == n
  {
    if n < 10 {
      assert Decimal(n) + rest == "" + [Digit(n)] + rest;
      DigitsAppend("", Digit(n), 0, rest);
    } else {
      DecimalIsDigits(n / 10);
      DigitsOfDecimal(n / 10, "");
      assert Decimal(n / 10) + "" == Decimal(n / 10);
      DigitsAppend(Decimal(n / 10), Digit(n % 10), 0, rest);
    }
  }

  predicate AllSpaces(s: string) {
    forall i :: 0 <= i < |s| ==> s[i] in {' ', '\t', '\n', '\U{000B}', '\U{000C}', '\r'}
  }

  lemma {:induction false} SpacesAreSkipped(spaces: string, s: string)
    requires AllSpaces(spaces) && (s == "" || !IsSpace(s[0]))
    ensures SkipSpaces(spaces + s) == s
  {
    if spaces == "" {
      assert spaces + s == s;
    } else {
      assert (spaces + s)[1..] == spaces[1..] + s;
      SpacesAreSkipped(spaces[1..], s);
    }
  }

  lemma SignedIsRead(z: int, rest: string)
    requires NoDigitFirst(rest)
    ensures Atoi(Signed(z) + rest) == z
    ensures !IsSpace((Signed(z) + rest)[0])
  {
    if z < 0 { MinusIsRead(-z, rest); } else { UnsignedIsRead(z, rest); }
  }

  lemma MinusIsRead(n: nat, rest: string)
    requires NoDigitFirst(rest)
    ensures Atoi("-" + Decimal(n) + rest) == -(n as int)
  {
    DigitsOfDecimal(n, rest);
    assert ("-" + Decimal(n) + rest)[1..] == Decimal(n) + rest;
  }

  lemma UnsignedIsRead(n: nat, rest: string)
    requires NoDigitFirst(rest)
    ensures Atoi(Decimal(n) + rest) == n && '0' <= (Decimal(n) + rest)[0] <= '9'
  {
    DecimalIsDigits(n);
    DigitsOfDecimal(n, rest);
    assert Decimal(n)[0] == (Decimal(n) + rest)[0];
  }

  lemma PlusIsRead(n: nat, rest: string)
    requires NoDigitFirst(rest)
    ensures Atoi("+" + Decimal(n) + rest) == n
  {
    DigitsOfDecimal(n, rest);
    assert ("+" + Decimal(n) + rest)[1..] == Decimal(n) + rest;
  }

  lemma SpacesBeforeNumber(spaces: string, s: string)
    requires AllSpaces(spaces) && s != "" && !IsSpace(s[0])
    ensures Atoi(spaces + s) == Atoi(s)
  {
    SpacesAreSkipped(spaces, s);
  }

  /** A number is read from its decimal digits, with a sign or without, behind any white space and whatever
      follows that is no digit. */
  lemma NumberIsRead(spaces: string, z: int, rest: string)
    requires AllSpaces(spaces) && NoDigitFirst(rest)
    ensures Atoi(spaces + (Signed(z) + rest)) == z
    ensures z >= 0 ==> Atoi(spaces + ("+" + Decimal(z) + rest)) == z
  {
    SignedIsRead(z, rest);
    SpacesBeforeNumber(spaces, Signed(z) + rest);
    if z >= 0 {
      PlusIsRead(z, rest);
      SpacesBeforeNumber(spaces, "+" + Decimal(z) + rest);
    }
  }

  lemma PlainNumber(z: int)
    ensures Atoi(Signed(z)) == z
  {
    SignedIsRead(z, "");
    assert Signed(z) + "" == Signed(z);
  }

  /** Text without a number reads as 0. */
  lemma NoNumberIsZero(s: string)
    requires s == "" || (!IsSpace(s[0]) && s[0] != '-' && s[0] != '+' && NoDigitFirst(s))
    ensures Atoi(s) == 0
  {
  }

  // ---------- modes ----------

  lemma {:induction false} TokenIsWord(word: string, rest: string)
    requires (forall i :: 0 <= i < |word| ==> !IsSpace(word[i])) && (rest == "" || IsSpace(rest[0]))
    ensures Token(word + rest) == word
  {
    if word == "" {
      assert word + rest == rest;
    } else {
      assert (word + rest)[1..] == word[1..] + rest;
      TokenIsWord(word[1..], rest);
    }
  }

  lemma StartsWithTwo(two: string, word: string)
    requires |two| == 2
    ensures two <= word <==> |word| >= 2 && word[..2] == two
  {
  }

  lemma ModeOfWord(input: string, skipped: string, word: string)
    requires SkipSpaces(input) == skipped && Token(skipped) == word
    ensures ParseRwMode(input)
         == if |word| >= 2 && word[..2] == "ro" then Ok(ReadOnly)
            else if |word| >= 2 && word[..2] == "wo" then Ok(WriteOnly)
            else if |word| >= 2 && word[..2] == "rw" then Ok(ReadWrite)
            else Err(WrongMode(word))
  {
    StartsWithTwo("ro", word);
    StartsWithTwo("wo", word);
    StartsWithTwo("rw", word);
  }

  /** The mode is decided by the first two letters of the first word. */
  lemma ModeIsRead(spaces: string, word: string, rest: string)
    requires AllSpaces(spaces) && word != "" && (forall i :: 0 <= i < |word| ==> !IsSpace(word[i]))
    requires rest == "" || IsSpace(rest[0])
    ensures ParseRwMode(spaces + (word + rest))
         == if |word| >= 2 && word[..2] == "ro" then Ok(ReadOnly)
            else if |word| >= 2 && word[..2] == "wo" then Ok(WriteOnly)
            else if |word| >= 2 && word[..2] == "rw" then Ok(ReadWrite)
            else Err(WrongMode(word))
  {
    SpacesAreSkipped(spaces, word + rest);
    TokenIsWord(word, rest);
    ModeOfWord(spaces + (word + rest), word + rest, word);
  }

  function ModeWord(m: RwMode): string {
    match m
    case ReadOnly => "ro"
    case WriteOnly => "wo"
    case ReadWrite => "rw"
  }

  lemma ModeWordIsRead(m: RwMode)
    ensures ParseRwMode(ModeWord(m)) == Ok(m)
  {
    var word := ModeWord(m);
    ModeIsRead("", word, "");
    assert "" + (word + "") == word && word[..2] == word;
    assert "ro"[0] != "wo"[0] && "ro"[1] != "rw"[1] && "wo"[0] != "rw"[0];
  }

  // ---------- lines ----------

  function RegionLine(r: MRegion): string {
    Join([r.name, Decimal(r.sz)], ',')
  }

  /** Name, random flag, stride, probability, and the mode if it is written out. */
  function PatternFields(p: Pattern, regions: seq<MRegion>, withMode: bool): (fields: seq<string>)
    requires p.region < |regions|
    ensures |fields| > 0
  {
    [regions[p.region].name, Signed(p.randomAccess), Decimal(p.stride), Signed(p.probability)]
    + if withMode then [ModeWord(p.mode)] else []
  }

  function PatternLine(p: Pattern, regions: seq<MRegion>, withMode: bool): string
    requires p.region < |regions|
  {
    Join(PatternFields(p, regions, withMode), ',')
  }

  lemma SignedLacks(z: int, c: char)
    requires c != '-' && !('0' <= c <= '9')
    ensures c !in Signed(z)
  {
    DecimalIsDigits(if z < 0 then -z else z);
  }

  predicate RegionOk(r: MRegion) {
    && ',' !in r.name && '\n' !in r.name && NUL !in r.name && (r.name != "" ==> r.name[0] != '#')
    && r.sz < SIZE_T
  }

  predicate PatternOk(p: Pattern, regions: seq<MRegion>) {
    && p.region < |regions| && p.stride < SIZE_T
    && forall k :: 0 <= k < |regions| && k != p.region ==> regions[k].name != regions[p.region].name
  }

  /** A region's line gives back its name and size. */
  lemma RegionIsRead(r: MRegion)
    requires RegionOk(r)
    ensures RegionOf(RegionLine(r)) == Ok(r)
  {
    var fields := [r.name, Decimal(r.sz)];
    SignedLacks(r.sz, ',');
    PiecesOfJoin(fields, ',');
    PlainNumber(r.sz);
  }

  lemma PatternLineIsCut(p: Pattern, regions: seq<MRegion>, withMode: bool)
    requires PatternOk(p, regions) && RegionOk(regions[p.region])
    ensures Pieces(PatternLine(p, regions, withMode), ',', 0) == PatternFields(p, regions, withMode)
  {
    SignedLacks(p.randomAccess, ',');
    SignedLacks(p.stride, ',');
    SignedLacks(p.probability, ',');
    PiecesOfJoin(PatternFields(p, regions, withMode), ',');
  }

  lemma NameIsFound(p: Pattern, regions: seq<MRegion>)
    requires PatternOk(p, regions)
    ensures RegionNamed(regions[p.region].name, regions, |regions|) == p.region
  {
  }

  lemma FieldsAreRead(p: Pattern)
    requires p.stride < SIZE_T
    ensures Atoi(Signed(p.randomAccess)) == p.randomAccess && Atoi(Signed(p.probability)) == p.probability
    ensures Atoi(Decimal(p.stride)) % SIZE_T == p.stride
  {
    PlainNumber(p.randomAccess);
    PlainNumber(p.stride);
    PlainNumber(p.probability);
  }

  /** A pattern's line gives back its region, random flag, stride, probability and mode; the default mode
      where none is written. */
  lemma PatternIsRead(p: Pattern, regions: seq<MRegion>, defaultMode: RwMode, withMode: bool)
    requires PatternOk(p, regions) && RegionOk(regions[p.region])
    requires withMode || p.mode == defaultMode
    ensures PatternOf(PatternLine(p, regions, withMode), regions, defaultMode) == Ok(p)
  {
    PatternLineIsCut(p, regions, withMode);
    NameIsFound(p, regions);
    FieldsAreRead(p);
    ModeWordIsRead(p.mode);
  }

  /** A region's line is refused exactly if it has not one comma. */
  lemma RegionRefusedExactly(line: string)
    ensures RegionOf(line) == Err(WrongRegion(line)) <==> CountOf(line, ',', 0) != 1
    ensures RegionOf(line).Ok? <==> CountOf(line, ',', 0) == 1
  {
    PiecesAreCounted(line, ',', 0);
  }

  /** The text before the first comma names a region. */
  ghost predicate NamesRegion(line: string, regions: seq<MRegion>) {
    exists k :: 0 <= k < |regions| && regions[k].name == line[..FirstAt(line, ',', 0)]
  }

  lemma FirstField(line: string)
    ensures Pieces(line, ',', 0)[0] == line[..FirstAt(line, ',', 0)]
  {
    FirstPiece(line, ',', 0);
  }

  /** A pattern's line is refused exactly if it has neither three nor four commas, or no region has its name, or
      its fifth field is no mode; and for the first of these reasons that holds. */
  lemma PatternRefusedExactly(line: string, regions: seq<MRegion>, defaultMode: RwMode)
    ensures |Pieces(line, ',', 0)| == CountOf(line, ',', 0) + 1
    ensures var commas, r := CountOf(line, ',', 0), PatternOf(line, regions, defaultMode);
            if commas != 3 && commas != 4 then r == Err(WrongNumberOfFields(line))
            else if !NamesRegion(line, regions) then r == Err(NoSuchRegion(line[..FirstAt(line, ',', 0)]))
            else if commas == 4 && ParseRwMode(Pieces(line, ',', 0)[4]).Err?
            then r == Err(ParseRwMode(Pieces(line, ',', 0)[4]).error)
            else r.Ok?
  {
    PiecesAreCounted(line, ',', 0);
    FirstField(line);
    var name := line[..FirstAt(line, ',', 0)];
    assert NamesRegion(line, regions) <==> RegionNamed(name, regions, |regions|) != -1;
  }

  // ---------- phases ----------

  function PatternLines(patterns: seq<Share>, regions: seq<MRegion>): (lines: seq<string>)
    requires forall j :: 0 <= j < |patterns| ==> patterns[j].pattern.region < |regions|
    ensures |lines| == |patterns|
    ensures forall j :: 0 <= j < |lines| ==> lines[j] == PatternLine(patterns[j].pattern, regions, true)
  {
    seq(|patterns|, j requires 0 <= j < |patterns| && patterns[j].pattern.region < |regions| =>
          PatternLine(patterns[j].pattern, regions, true))
  }

  predicate PhaseOk(p: Phase, regions: seq<MRegion>) {
    && p.name != "" && '\n' !in p.name && NUL !in p.name && p.name[0] != '#'
    && p.timeMs < UNSIGNED && |p.patterns| > 0 && SharesFollow(p)
    && forall j :: 0 <= j < |p.patterns| ==> PatternOk(p.patterns[j].pattern, regions)
  }

  function PhaseLines(p: Phase, regions: seq<MRegion>): seq<string>
    requires PhaseOk(p, regions)
  {
    [p.name, Decimal(p.timeMs)] + PatternLines(p.patterns, regions)
  }

  predicate RegionsOk(regions: seq<MRegion>) {
    |regions| > 0 && forall i :: 0 <= i < |regions| ==> RegionOk(regions[i])
  }

  lemma PatternIsMade(p: Phase, regions: seq<MRegion>, defaultMode: RwMode, j: nat)
    requires RegionsOk(regions) && PhaseOk(p, regions) && 2 <= j < |p.patterns| + 2
    ensures |PhaseLines(p, regions)| == |p.patterns| + 2
    ensures PatternOf(PhaseLines(p, regions)[j], regions, defaultMode) == Ok(p.patterns[j - 2].pattern)
  {
    var q := p.patterns[j - 2].pattern;
    assert PatternOk(q, regions) && RegionOk(regions[q.region]);
    PatternIsRead(q, regions, defaultMode, true);
    assert PhaseLines(p, regions)[j] == PatternLine(q, regions, true);
  }

  lemma PatternsAreMade(p: Phase, regions: seq<MRegion>, defaultMode: RwMode)
    requires RegionsOk(regions) && PhaseOk(p, regions)
    ensures var lines := PhaseLines(p, regions);
            |lines| == |p.patterns| + 2 && PatternsFrom(lines, |lines|, regions, defaultMode, p.patterns)
  {
    var lines := PhaseLines(p, regions);
    forall j | 2 <= j < |lines| ensures PatternOf(lines[j], regions, defaultMode) == Ok(p.patterns[j - 2].pattern) {
      PatternIsMade(p, regions, defaultMode, j);
    }
  }

  lemma TimeIsRead(timeMs: nat)
    requires timeMs < UNSIGNED
    ensures Atoi(Decimal(timeMs)) % UNSIGNED == timeMs
  {
    PlainNumber(timeMs);
    assert Signed(timeMs) == Decimal(timeMs);
  }

  lemma PhaseIsMade(p: Phase, regions: seq<MRegion>, defaultMode: RwMode)
    requires RegionsOk(regions) && PhaseOk(p, regions)
    ensures PhaseFrom(PhaseLines(p, regions), regions, defaultMode, p)
  {
    var lines := PhaseLines(p, regions);
    TimeIsRead(p.timeMs);
    PatternsAreMade(p, regions, defaultMode);
  }

  lemma {:induction false} SameSums(a: seq<Share>, b: seq<Share>, n: nat)
    requires n <= |a| && n <= |b| && forall j :: 0 <= j < n ==> a[j].pattern == b[j].pattern
    ensures SumProbability(a, n) == SumProbability(b, n)
  {
    if n > 0 { SameSums(a, b, n - 1); }
  }

  /** A paragraph makes at most one phase. */
  lemma PhaseIsUnique(lines: seq<string>, regions: seq<MRegion>, defaultMode: RwMode, p: Phase, q: Phase)
    requires PhaseFrom(lines, regions, defaultMode, p) && PhaseFrom(lines, regions, defaultMode, q)
    ensures p == q
  {
    forall j | 0 <= j < |p.patterns| ensures p.patterns[j].pattern == q.patterns[j].pattern {
      assert PatternOf(lines[j + 2], regions, defaultMode) == Ok(p.patterns[j].pattern) == Ok(q.patterns[j].pattern);
    }
    forall j | 0 <= j <= |p.patterns| ensures SumProbability(p.patterns, j) == SumProbability(q.patterns, j) {
      SameSums(p.patterns, q.patterns, j);
    }
    assert p.patterns == q.patterns;
  }

  /** A phase's paragraph gives back that phase and no other. */
  lemma PhaseIsRead(p: Phase, q: Phase, regions: seq<MRegion>, defaultMode: RwMode)
    requires RegionsOk(regions) && PhaseOk(p, regions)
    ensures PhaseFrom(PhaseLines(p, regions), regions, defaultMode, q) <==> q == p
  {
    PhaseIsMade(p, regions, defaultMode);
    if PhaseFrom(PhaseLines(p, regions), regions, defaultMode, q) {
      PhaseIsUnique(PhaseLines(p, regions), regions, defaultMode, p, q);
    }
  }

  // ---------- the whole file ----------

  predicate ConfigOk(regions: seq<MRegion>, phases: seq<Phase>) {
    RegionsOk(regions) && |phases| > 0 && forall i :: 0 <= i < |phases| ==> PhaseOk(phases[i], regions)
  }

  function RegionLines(regions: seq<MRegion>): (lines: seq<string>)
    ensures |lines| == |regions| && forall i :: 0 <= i < |lines| ==> lines[i] == RegionLine(regions[i])
  {
    seq(|regions|, i requires 0 <= i < |regions| => RegionLine(regions[i]))
  }

  function Paragraphs(regions: seq<MRegion>, phases: seq<Phase>): (paragraphs: seq<seq<string>>)
    requires ConfigOk(regions, phases)
    ensures |paragraphs| == |phases| + 1 && paragraphs[|phases|] == []
    ensures forall i :: 0 <= i < |phases| ==> paragraphs[i] == PhaseLines(phases[i], regions)
  {
    seq(|phases|, i requires 0 <= i < |phases| && ConfigOk(regions, phases) => PhaseLines(phases[i], regions)) + [[]]
  }

  /** The regions, an empty line, and the phases with an empty line behind each. */
  function Printed(regions: seq<MRegion>, phases: seq<Phase>): string
    requires ConfigOk(regions, phases)
  {
    Join(RegionLines(regions) + ([""] + Join(Paragraphs(regions, phases), "")), '\n')
  }

  /** A line that is there, without a line end or terminator in it, and no comment. */
  predicate Plain(line: string) {
    line != "" && '\n' !in line && NUL !in line && line[0] != '#'
  }

  lemma JoinLacks(fields: seq<string>, c: char)
    requires |fields| > 0 && c != ',' && forall i :: 0 <= i < |fields| ==> c !in fields[i]
    ensures c !in Join(fields, ',')
    decreases |fields|
  {
    if |fields| > 1 { JoinLacks(fields[1..], c); }
  }

  lemma FirstChar(fields: seq<string>)
    requires |fields| > 1
    ensures Join(fields, ',') != "" && Join(fields, ',')[0] == if fields[0] == "" then ',' else fields[0][0]
  {
  }

  lemma RegionLineIsPlain(r: MRegion)
    requires RegionOk(r)
    ensures Plain(RegionLine(r))
  {
    var fields := [r.name, Decimal(r.sz)];
    forall c | c in {'\n', NUL} ensures c !in RegionLine(r) {
      SignedLacks(r.sz, c);
      JoinLacks(fields, c);
    }
    FirstChar(fields);
  }

  lemma PatternLineIsPlain(p: Pattern, regions: seq<MRegion>)
    requires PatternOk(p, regions) && RegionOk(regions[p.region])
    ensures Plain(PatternLine(p, regions, true))
  {
    var fields := PatternFields(p, regions, true);
    forall c | c in {'\n', NUL} ensures c !in PatternLine(p, regions, true) {
      SignedLacks(p.randomAccess, c);
      SignedLacks(p.stride, c);
      SignedLacks(p.probability, c);
      JoinLacks(fields, c);
    }
    FirstChar(fields);
  }

  lemma PhaseLinesArePlain(p: Phase, regions: seq<MRegion>)
    requires RegionsOk(regions) && PhaseOk(p, regions)
    ensures forall i :: 0 <= i < |PhaseLines(p, regions)| ==> Plain(PhaseLines(p, regions)[i])
  {
    var lines := PhaseLines(p, regions);
    forall i | 0 <= i < |lines| ensures Plain(lines[i]) {
      if i == 1 {
        SignedLacks(p.timeMs, '\n');
        SignedLacks(p.timeMs, NUL);
        DecimalIsDigits(p.timeMs);
      } else if i >= 2 {
        PatternLineIsPlain(p.patterns[i - 2].pattern, regions);
      }
    }
  }

  /** Plain, or empty. */
  predicate PlainOrEmpty(line: string) { line == "" || Plain(line) }

  lemma {:induction false} ParagraphsArePlain(paragraphs: seq<seq<string>>)
    requires |paragraphs| > 0
    requires forall i, k :: 0 <= i < |paragraphs| && 0 <= k < |paragraphs[i]| ==> Plain(paragraphs[i][k])
    ensures forall k :: 0 <= k < |Join(paragraphs, "")| ==> PlainOrEmpty(Join(paragraphs, "")[k])
    decreases |paragraphs|
  {
    if |paragraphs| > 1 {
      forall i, k | 0 <= i < |paragraphs[1..]| && 0 <= k < |paragraphs[1..][i]| ensures Plain(paragraphs[1..][i][k]) {
        assert paragraphs[1..][i] == paragraphs[i + 1];
      }
      ParagraphsArePlain(paragraphs[1..]);
    }
  }

  lemma {:induction false} JoinAppend<T>(a: seq<seq<T>>, b: seq<seq<T>>, d: T)
    requires |a| > 0 && |b| > 0
    ensures Join(a + b, d) == Join(a, d) + [d] + Join(b, d)
    decreases |a|
  {
    if |a| == 1 {
      assert (a + b)[1..] == b;
    } else {
      assert (a + b)[1..] == a[1..] + b;
      JoinAppend(a[1..], b, d);
      assert Join(a + b, d) == a[0] + [d] + (Join(a[1..], d) + [d] + Join(b, d));
    }
  }

  /** The text of plain lines has no empty line, and none begins at its end. */
  lemma {:induction false} NoBreakInside(lines: seq<string>, tail: string, i: nat)
    requires |lines| > 0 && (forall k :: 0 <= k < |lines| ==> Plain(lines[k])) && i < |Join(lines, '\n')|
    ensures !IsBreak(Join(lines, '\n') + "\n\n" + tail, i)
    decreases |lines|
  {
    var text, first := Join(lines, '\n') + "\n\n" + tail, lines[0];
    if i < |first| {
      assert text[i] == first[i];
    } else {
      var rest := Join(lines[1..], '\n');
      var after := rest + "\n\n" + tail;
      assert text == first + "\n" + after;
      if i == |first| {
        PlainStart(lines[1..]);
        assert text[i + 1] == after[0] == rest[0];
      } else {
        NoBreakInside(lines[1..], tail, i - |first| - 1);
        assert forall k :: |first| < k < |text| ==> text[k] == after[k - |first| - 1];
      }
    }
  }

  lemma PlainStart(lines: seq<string>)
    requires |lines| > 0 && Plain(lines[0])
    ensures Join(lines, '\n') != "" && Join(lines, '\n')[0] == lines[0][0]
  {
  }

  lemma SplitIsUnique(content: string, head: string, tail: string, head': string, tail': string)
    requires SplitsAt(content, head, tail) && SplitsAt(content, head', tail')
    ensures head == head' && tail == tail'
  {
    assert IsBreak(content, |head|) && IsBreak(content, |head'|);
    assert |head| == |head'|;
    assert head == content[..|head|] == head';
    assert tail == content[|head| + 2..] == tail';
  }

  lemma JoinWithEmptyLine(a: seq<string>, b: seq<string>)
    requires |a| > 0 && |b| > 0
    ensures Join(a + ([""] + b), '\n') == Join(a, '\n') + "\n\n" + Join(b, '\n')
  {
    JoinAppend(a, [""] + b, '\n');
    JoinCons("", b, '\n');
    assert Join(a, '\n') + "\n" + ("" + "\n" + Join(b, '\n')) == Join(a, '\n') + "\n\n" + Join(b, '\n');
  }

  lemma PrintedIsHeadAndTail(regions: seq<MRegion>, phases: seq<Phase>)
    requires ConfigOk(regions, phases)
    ensures var head, tail := Join(RegionLines(regions), '\n'), Join(PhaseText(regions, phases), '\n');
            Printed(regions, phases) == head + "\n\n" + tail && SplitsAt(Printed(regions, phases), head, tail)
  {
    var regionLines, lines := RegionLines(regions), PhaseText(regions, phases);
    LinesArePlain(regions, phases);
    var head, tail := Join(regionLines, '\n'), Join(lines, '\n');
    JoinWithEmptyLine(regionLines, lines);
    forall i: nat | i < |head| ensures !IsBreak(head + "\n\n" + tail, i) { NoBreakInside(regionLines, tail, i); }
  }

  lemma FileLinesArePlain(regionLines: seq<string>, lines: seq<string>) returns (front: seq<string>)
    requires (forall i :: 0 <= i < |regionLines| ==> Plain(regionLines[i]))
    requires |lines| > 0 && lines[|lines| - 1] == "" && forall k :: 0 <= k < |lines| ==> PlainOrEmpty(lines[k])
    ensures regionLines + ([""] + lines) == front + [""]
    ensures forall k :: 0 <= k < |front| ==> PlainOrEmpty(front[k])
  {
    front := regionLines + ([""] + lines[..|lines| - 1]);
    assert lines == lines[..|lines| - 1] + [""];
  }

  /** What the reader sees of a printed configuration: the text as it is, its head and its tail. */
  lemma PrintedSplits(regions: seq<MRegion>, phases: seq<Phase>)
    requires ConfigOk(regions, phases)
    ensures var file := Printed(regions, phases);
            NUL !in file && UpToNul(Kept(Pieces(file, '\n', 0))) == file
    ensures Pieces(Join(RegionLines(regions), '\n'), '\n', 0) == RegionLines(regions)
    ensures PhaseText(regions, phases) != []
    ensures Pieces(Join(PhaseText(regions, phases), '\n'), '\n', 0) == PhaseText(regions, phases)
  {
    var regionLines, lines := RegionLines(regions), PhaseText(regions, phases);
    LinesArePlain(regions, phases);
    PiecesOfJoin(regionLines, '\n');
    PiecesOfJoin(lines, '\n');
    var front := FileLinesArePlain(regionLines, lines);
    KeptAsItIs(front);
  }

  function PhaseText(regions: seq<MRegion>, phases: seq<Phase>): seq<string>
    requires ConfigOk(regions, phases)
  {
    Join(Paragraphs(regions, phases), "")
  }

  lemma {:induction false} JoinedParagraphsEndEmpty(paragraphs: seq<seq<string>>)
    requires |paragraphs| > 1 && paragraphs[|paragraphs| - 1] == []
    ensures var lines := Join(paragraphs, ""); lines != [] && lines[|lines| - 1] == "" && |lines| > |paragraphs[0]|
    decreases |paragraphs|
  {
    if |paragraphs| > 2 { JoinedParagraphsEndEmpty(paragraphs[1..]); }
  }

  lemma LinesArePlain(regions: seq<MRegion>, phases: seq<Phase>)
    requires ConfigOk(regions, phases)
    ensures forall i :: 0 <= i < |regions| ==> Plain(RegionLines(regions)[i])
    ensures var lines := PhaseText(regions, phases);
            && |lines| >= 4 && lines[|lines| - 1] == ""
            && forall k :: 0 <= k < |lines| ==> PlainOrEmpty(lines[k])
  {
    forall i | 0 <= i < |regions| ensures Plain(RegionLines(regions)[i]) { RegionLineIsPlain(regions[i]); }
    var paragraphs := Paragraphs(regions, phases);
    forall i, k | 0 <= i < |paragraphs| && 0 <= k < |paragraphs[i]| ensures Plain(paragraphs[i][k]) {
      if i < |phases| { PhaseLinesArePlain(phases[i], regions); }
    }
    ParagraphsArePlain(paragraphs);
    JoinedParagraphsEndEmpty(paragraphs);
  }

  lemma KeptWhole(front: seq<string>)
    requires forall k :: 0 <= k < |front| ==> !IsComment(front[k])
    ensures Kept(front + [""]) == Join(front + [""], '\n')
  {
    NoCommentsKeepAll(front);
    KeptIsJoined(front + [""]);
  }

  lemma PlainLines(lines: seq<string>)
    requires forall k :: 0 <= k < |lines| ==> PlainOrEmpty(lines[k])
    ensures forall k :: 0 <= k < |lines| ==> !IsComment(lines[k])
  {
  }

  lemma PlainTextIsCut(lines: seq<string>)
    requires |lines| > 0 && forall k :: 0 <= k < |lines| ==> PlainOrEmpty(lines[k])
    ensures Pieces(Join(lines, '\n'), '\n', 0) == lines
  {
    PiecesOfJoin(lines, '\n');
  }

  /** Lines without comments that end with an empty one are kept as they are. */
  lemma KeptAsItIs(front: seq<string>)
    requires forall k :: 0 <= k < |front| ==> PlainOrEmpty(front[k])
    ensures var file := Join(front + [""], '\n'); NUL !in file && UpToNul(Kept(Pieces(file, '\n', 0))) == file
  {
    PlainLines(front);
    KeptWhole(front);
    PlainTextIsCut(front + [""]);
    JoinedLacksNul(front + [""]);
  }

  lemma {:induction false} JoinedLacksNul(lines: seq<string>)
    requires |lines| > 0 && forall k :: 0 <= k < |lines| ==> PlainOrEmpty(lines[k])
    ensures NUL !in Join(lines, '\n')
    decreases |lines|
  {
    if |lines| > 1 { JoinedLacksNul(lines[1..]); }
  }

  lemma ParagraphsAreCut(regions: seq<MRegion>, phases: seq<Phase>)
    requires ConfigOk(regions, phases)
    ensures Pieces(PhaseText(regions, phases), "", 0) == Paragraphs(regions, phases)
  {
    var paragraphs := Paragraphs(regions, phases);
    forall i | 0 <= i < |paragraphs| ensures "" !in paragraphs[i] {
      if i < |phases| { PhaseLinesArePlain(phases[i], regions); }
    }
    PiecesOfJoin(paragraphs, "");
  }

  lemma RegionsAreRead(regions: seq<MRegion>, read: seq<MRegion>, at: nat, e: ConfigError)
    requires RegionsOk(regions)
    ensures RegionsFrom(RegionLines(regions), read) ==> read == regions
    ensures !FirstWrongRegion(RegionLines(regions), at, e)
  {
    forall i | 0 <= i < |regions| ensures RegionOf(RegionLines(regions)[i]) == Ok(regions[i]) {
      RegionIsRead(regions[i]);
    }
  }

  lemma PhasesAreRead(regions: seq<MRegion>, phases: seq<Phase>, defaultMode: RwMode, read: seq<Phase>)
    requires ConfigOk(regions, phases)
    requires PhasesFrom(PhaseText(regions, phases), regions, defaultMode, read)
    ensures read == phases
  {
    ParagraphsAreCut(regions, phases);
    forall i | 0 <= i < |phases| ensures read[i] == phases[i] {
      assert PhaseFrom(Paragraphs(regions, phases)[i], regions, defaultMode, read[i]);
      PhaseIsRead(phases[i], read[i], regions, defaultMode);
    }
  }

  lemma PhasesAreNotRefused(regions: seq<MRegion>, phases: seq<Phase>, defaultMode: RwMode, e: ConfigError)
    requires ConfigOk(regions, phases)
    ensures !NotPhases(PhaseText(regions, phases), regions, defaultMode, e)
  {
    ParagraphsAreCut(regions, phases);
    LinesArePlain(regions, phases);
    forall good ensures !FirstWrongPhase(PhaseText(regions, phases), regions, defaultMode, good, e) {
      if |good| < |phases| {
        PhaseIsMade(phases[|good|], regions, defaultMode);
        PhaseExcludesReason(PhaseLines(phases[|good|], regions), regions, defaultMode, phases[|good|], e);
      }
    }
  }

  /** Reading a printed configuration gives it back: every region's name and size; every phase's name and time;
      and every pattern's region, random flag, stride, probability, mode and share of the draw. */
  method ReadPrinted(regions: seq<MRegion>, phases: seq<Phase>, defaultMode: RwMode)
    returns (r: Result<(seq<MRegion>, seq<Phase>)>)
    requires ConfigOk(regions, phases)
    ensures r == Ok((regions, phases))
  {
    PrintedSplits(regions, phases);
    PrintedIsHeadAndTail(regions, phases);
    var head, tail;
    r, head, tail := ReadConfig(Printed(regions, phases), defaultMode);
    ghost var regionText := Join(RegionLines(regions), '\n');
    assert IsBreak(Printed(regions, phases), |regionText|);
    SplitIsUnique(Printed(regions, phases), head, tail, regionText, Join(PhaseText(regions, phases), '\n'));
    if r.Ok? {
      RegionsAreRead(regions, r.value.0, 0, NotEnoughLines);
      PhasesAreRead(regions, phases, defaultMode, r.value.1);
    } else {
      NotRefused(regions, phases, defaultMode, r.error);
      assert false;
    }
  }

  lemma NotRefused(regions: seq<MRegion>, phases: seq<Phase>, defaultMode: RwMode, e: ConfigError)
    requires ConfigOk(regions, phases)
    ensures var head, tail := Join(RegionLines(regions), '\n'), Join(PhaseText(regions, phases), '\n');
            !exists read :: ConfigRefused(head, tail, read, defaultMode, e)
  {
    var head, tail := Join(RegionLines(regions), '\n'), Join(PhaseText(regions, phases), '\n');
    PrintedSplits(regions, phases);
    forall read ensures !ConfigRefused(head, tail, read, defaultMode, e) {
      forall at: nat ensures !FirstWrongRegion(RegionLines(regions), at, e) { RegionsAreRead(regions, read, at, e); }
      RegionsAreRead(regions, read, 0, e);
      PhasesAreNotRefused(regions, phases, defaultMode, e);
    }
  }
}
