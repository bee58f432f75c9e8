/**
  Reading one partition line of an `sfdisk -d` dump (src/partition/parse.rs).

  The line pattern is
    `(?P<full_path>/dev/(\w+(?P<part_num>\d+)))\s+:\s+(:?start=\s+)(?P<start_block>\d+)[,](?P<rest>.*)`
  and is searched for anywhere in the line, the leftmost match winning.
  Tried at a fixed position it needs no backtracking, except at one place:
  `\w+` also eats digits, and since `\s+` must follow, the greedy `\w+`
  gives back exactly one character to `part_num`. So `part_num` is always
  the single last digit of the path (`/dev/sda12` has partition number 2).
  Every other repetition is followed by a character outside its class, so
  its greedy run is the only one that can lead to a match.
 */
module PartitionParse {
  import opened Wrappers
  import opened Text
  import opened Partitions

  // ---------------------------------------------------------------------------
  // The line pattern, tried at one position
  // ---------------------------------------------------------------------------

  /**
    `/dev/(\w+\d+)` at `k`, where a space must come next: the end of the
    `full_path` group. The word run is taken whole and must end in a digit,
    with at least one word character before that digit.
   */
  function PathEnd(s: string, k: nat): (r: Option<nat>)
    ensures r.Some? ==> k + 7 <= r.value <= |s|
  {
    if !LiteralAt(s, k, "/dev/") then None
    else
      var e := RunEnd(s, k + 5, Word);
      if e >= k + 7 && IsDigit(s[e - 1]) then Some(e) else None
  }

  /**
    `\s+:\s+(:?start=\s+)` from `e`: where the digits of the start block
    begin. The colon before `start=` is optional.
   */
  function BlockStart(s: string, e: nat): (r: Option<nat>)
    requires e <= |s|
    ensures r.Some? ==> e + 9 < r.value <= |s|
  {
    var e2 := RunEnd(s, e, Space);
    if e2 == e || e2 == |s| || s[e2] != ':' then None
    else
      var e3 := RunEnd(s, e2 + 1, Space);
      if e3 == e2 + 1 then None
      else
        var c := if e3 < |s| && s[e3] == ':' then e3 + 1 else e3;
        if !LiteralAt(s, c, "start=") then None
        else
          var e4 := RunEnd(s, c + 6, Space);
          if e4 == c + 6 then None else Some(e4)
  }

  /**
    A match: where it starts, where `full_path` ends (its last character is
    `part_num`), where `start_block` begins and ends (at the comma), and
    where `rest` ends (at a newline or the end of the line).
   */
  datatype LineSpan = LineSpan(start: nat, pathEnd: nat, blockStart: nat, blockEnd: nat, restEnd: nat)

  /** The positions of a span are in order and inside `s`. */
  predicate SpanFits(s: string, m: LineSpan) {
    m.start + 7 <= m.pathEnd < m.blockStart < m.blockEnd < |s| && m.blockEnd < m.restEnd <= |s|
  }

  /** The whole pattern tried at position `k`. */
  function LineMatchAt(s: string, k: nat): (r: Option<LineSpan>)
    ensures r.Some? ==> r.value.start == k && SpanFits(s, r.value)
  {
    match PathEnd(s, k)
    case None => None
    case Some(e) =>
      match BlockStart(s, e)
      case None => None
      case Some(b) =>
        match DigitsThen(s, b, ',')
        case None => None
        case Some(c) => Some(LineSpan(k, e, b, c, RunEnd(s, c + 1, NotNewline)))
  }

  /** The path found at `k` is `/dev/`, then word characters ending in a digit, then no further word character. */
  lemma PathEndShape(s: string, k: nat)
    requires PathEnd(s, k).Some?
    ensures var e := PathEnd(s, k).value;
      && LiteralAt(s, k, "/dev/") && IsDigit(s[e - 1])
      && (forall m | k + 5 <= m < e :: IsWordChar(s[m]))
      && (e == |s| || !IsWordChar(s[e]))
  {
    RunEndShape(s, k + 5, Word);
  }

  /** The start block of a match is a run of digits. */
  lemma LineMatchAtDigits(s: string, k: nat)
    requires LineMatchAt(s, k).Some?
    ensures var m := LineMatchAt(s, k).value;
      forall j | m.blockStart <= j < m.blockEnd :: IsDigit(s[j])
  {
    var m := LineMatchAt(s, k).value;
    DigitsThenShape(s, m.blockStart, ',');
  }

  /** What a match says about the line at and after its start. */
  lemma LineMatchAtShape(s: string, k: nat)
    requires LineMatchAt(s, k).Some?
    ensures var m := LineMatchAt(s, k).value;
      && m.start == k && PathEnd(s, k) == Some(m.pathEnd)
      && m.pathEnd < m.blockStart < m.blockEnd < m.restEnd <= |s|
      && s[m.blockEnd] == ',' && (forall j | m.blockStart <= j < m.blockEnd :: IsDigit(s[j]))
      && (forall j | m.blockEnd < j < m.restEnd :: s[j] != '\n')
      && (m.restEnd == |s| || s[m.restEnd] == '\n')
  {
    var m := LineMatchAt(s, k).value;
    DigitsThenShape(s, m.blockStart, ',');
    RunEndShape(s, m.blockEnd + 1, NotNewline);
  }

  // ---------------------------------------------------------------------------
  // The leftmost match and `is_sfdisk_partition_line`
  // ---------------------------------------------------------------------------

  /** The pattern matches at no position in `[a, b)`. */
  predicate NoLineMatchIn(s: string, a: nat, b: nat)
    decreases b - a
  {
    a >= b || (LineMatchAt(s, a).None? && NoLineMatchIn(s, a + 1, b))
  }

  lemma NoLineMatchInIff(s: string, a: nat, b: nat)
    ensures NoLineMatchIn(s, a, b) <==> forall j | a <= j < b :: LineMatchAt(s, j).None?
  {
    if NoLineMatchIn(s, a, b) {
      NoLineMatchInAll(s, a, b);
    } else {
      var j := SomeLineMatchIn(s, a, b);
    }
  }

  lemma {:induction false} NoLineMatchInAll(s: string, a: nat, b: nat)
    requires NoLineMatchIn(s, a, b)
    ensures forall j | a <= j < b :: LineMatchAt(s, j).None?
    decreases b - a
  {
    if a < b {
      NoLineMatchInAll(s, a + 1, b);
      forall j | a <= j < b ensures LineMatchAt(s, j).None? {
        if j == a {
          assert LineMatchAt(s, a).None?;
        }
      }
    }
  }

  lemma {:induction false} SomeLineMatchIn(s: string, a: nat, b: nat) returns (j: nat)
    requires !NoLineMatchIn(s, a, b)
    ensures a <= j < b && LineMatchAt(s, j).Some?
    decreases b - a
  {
    if LineMatchAt(s, a).Some? {
      j := a;
    } else {
      j := SomeLineMatchIn(s, a + 1, b);
    }
  }

  /** The leftmost match at or after position `i`. */
  function FirstLineMatch(s: string, i: nat): (r: Option<LineSpan>)
    ensures r.Some? ==> i <= r.value.start < |s| && LineMatchAt(s, r.value.start) == Some(r.value)
    decreases |s| - i
  {
    if i >= |s| then None
    else
      var here := LineMatchAt(s, i);
      if here.Some? then here
      else FirstLineMatch(s, i + 1)
  }

  /** The match found is the leftmost one: there is none before it, and none at all when nothing is found. */
  lemma {:induction false} FirstLineMatchLeftmost(s: string, i: nat)
    ensures FirstLineMatch(s, i).Some? ==> NoLineMatchIn(s, i, FirstLineMatch(s, i).value.start)
    ensures FirstLineMatch(s, i).None? <==> NoLineMatchIn(s, i, |s|)
    decreases |s| - i
  {
    if i < |s| && LineMatchAt(s, i).None? {
      FirstLineMatchLeftmost(s, i + 1);
    }
  }

  /** `is_sfdisk_partition_line`: `Regex::is_match`, a match anywhere in the line. */
  predicate IsSfdiskPartitionLine(line: string) {
    FirstLineMatch(line, 0).Some?
  }

  /** A line is a partition line exactly when the pattern matches at some position. */
  lemma IsSfdiskPartitionLineIff(line: string)
    ensures IsSfdiskPartitionLine(line) <==> exists k | 0 <= k < |line| :: LineMatchAt(line, k).Some?
  {
    FirstLineMatchLeftmost(line, 0);
    NoLineMatchInIff(line, 0, |line|);
  }

  // ---------------------------------------------------------------------------
  // `parse_sfdisk_partition_line`
  // ---------------------------------------------------------------------------

  /** The named groups of a `Regex::captures` result. */
  datatype LineCaptures = LineCaptures(fullPath: Option<string>, partNum: Option<string>, startBlock: Option<string>, rest: Option<string>)

  /** `Regex::captures` for the line pattern: `None` when there is no match. */
  function CaptureLine(line: string): Option<LineCaptures> {
    match FirstLineMatch(line, 0)
    case None => None
    case Some(m) => Some(CapturesOf(line, m))
  }

  /** The named groups of a match: `full_path`, `part_num` (the last character of the path), `start_block` and `rest`. */
  function CapturesOf(line: string, m: LineSpan): LineCaptures
    requires SpanFits(line, m)
  {
    LineCaptures(Some(line[m.start..m.pathEnd]), Some(line[m.pathEnd - 1..m.pathEnd]),
                 Some(line[m.blockStart..m.blockEnd]), Some(line[m.blockEnd + 1..m.restEnd]))
  }

  /** The failures `parse_sfdisk_partition_line` reports, in the order it checks for them. */
  datatype ParseError =
    | BadLine
    | MissingFullPath
    | BadPartNum(partNum: string, kind: IntErrorKind)
    | MissingPartNum
    | BadStartBlock(startBlock: string, kind: IntErrorKind)
    | MissingStartBlock
    | MissingRest

  /**
    What `parse_sfdisk_partition_line` computes: the path as `name`, the
    parsed `part_num` as `designation`, the parsed start block, and the
    whitespace-separated tokens of the rest of the line as `extras`. Each
    failure ends the parse; no partly filled partition is returned.
   */
  function PartitionOfLine(line: string): Result<Partition, ParseError> {
    PartitionOfCaptures(CaptureLine(line))
  }

  /** The field-by-field part of the parse, once the pattern has been applied. */
  function PartitionOfCaptures(captures: Option<LineCaptures>): Result<Partition, ParseError> {
    match captures
    case None => Err(BadLine)
    case Some(caps) =>
      if caps.fullPath.None? then Err(MissingFullPath)
      else if caps.partNum.None? then Err(MissingPartNum)
      else match ParseUsize(caps.partNum.value)
        case Err(kind) => Err(BadPartNum(caps.partNum.value, kind))
        case Ok(designation) =>
          if caps.startBlock.None? then Err(MissingStartBlock)
          else match ParseUsize(caps.startBlock.value)
            case Err(kind) => Err(BadStartBlock(caps.startBlock.value, kind))
            case Ok(startBlock) =>
              if caps.rest.None? then Err(MissingRest)
              else Ok(Partition(designation, startBlock, caps.fullPath.value, Tokens(caps.rest.value)))
  }

  /**
    The loop of `parse_sfdisk_partition_line` that pushes the tokens of
    `rest.split_whitespace()` onto `extras` one at a time, with the iterator
    written out: skip whitespace, take the run of non-whitespace that follows.
   */
  method SplitWhitespace(rest: string) returns (extras: seq<string>)
    ensures extras == Tokens(rest)
  {
    extras := [];
    var i := 0;
    while i < |rest|
      invariant i <= |rest|
      invariant extras + TokensFrom(rest, i) == Tokens(rest)
      decreases |rest| - i
    {
      if IsSpace(rest[i]) {
        i := i + 1;
      } else {
        var e := i + 1;
        while e < |rest| && !IsSpace(rest[e])
          invariant i < e <= |rest|
          invariant forall m | i <= m < e :: !IsSpace(rest[m])
          decreases |rest| - e
        {
          e := e + 1;
        }
        RunEndUnique(rest, i, NonSpace, e);
        extras := extras + [rest[i..e]];
        i := e;
      }
    }
  }

  /**
    `parse_sfdisk_partition_line`: fills a default partition field by field
    and collects the tokens of the rest of the line one at a time, the way
    `split_whitespace` yields them and the loop pushes them.
   */
  method ParseSfdiskPartitionLine(line: string) returns (r: Result<Partition, ParseError>)
    ensures r == PartitionOfLine(line)
  {
    var caps := CaptureLine(line);
    if caps.None? {
      return Err(BadLine);
    }
    var part := DefaultPartition();
    var extras: seq<string> := [];
    var c := caps.value;

    if c.fullPath.Some? {
      part := part.(name := c.fullPath.value);
    } else {
      return Err(MissingFullPath);
    }

    if c.partNum.Some? {
      var num := ParseUsize(c.partNum.value);
      if num.Ok? {
        part := part.(designation := num.value);
      } else {
        return Err(BadPartNum(c.partNum.value, num.error));
      }
    } else {
      return Err(MissingPartNum);
    }

    if c.startBlock.Some? {
      var num := ParseUsize(c.startBlock.value);
      if num.Ok? {
        part := part.(startBlock := num.value);
      } else {
        return Err(BadStartBlock(c.startBlock.value, num.error));
      }
    } else {
      return Err(MissingStartBlock);
    }

    if c.rest.Some? {
      extras := SplitWhitespace(c.rest.value);
    } else {
      return Err(MissingRest);
    }

    part := part.(extras := extras);
    return Ok(part);
  }

  // ---------------------------------------------------------------------------
  // What a parse yields
  // ---------------------------------------------------------------------------

  /**
    On a partition line the parse decodes the groups of the leftmost match.
    `part_num` is one digit and always parses, and every group is present,
    so the only failure left is a start block too large for a `usize`.
   */
  lemma PartitionOfLineMatched(line: string) returns (m: LineSpan)
    requires IsSfdiskPartitionLine(line)
    ensures FirstLineMatch(line, 0) == Some(m)
    ensures AllDigits(line[m.blockStart..m.blockEnd]) && IsDigit(line[m.pathEnd - 1])
    ensures var digits := line[m.blockStart..m.blockEnd];
      PartitionOfLine(line) ==
        if DecimalValue(digits) <= USIZE_MAX then
          Ok(Partition(DigitValue(line[m.pathEnd - 1]), DecimalValue(digits), line[m.start..m.pathEnd], Tokens(line[m.blockEnd + 1..m.restEnd])))
        else Err(BadStartBlock(digits, PosOverflow))
  {
    m := FirstLineMatch(line, 0).value;
    MatchDigits(line, m.start, m);
    CapturedPartNum(line, m);
    PartitionOfGroups(line[m.start..m.pathEnd], line[m.pathEnd - 1], line[m.blockStart..m.blockEnd], line[m.blockEnd + 1..m.restEnd]);
  }

  /** The path of a match ends in a digit, and its start block is a non-empty run of digits. */
  lemma MatchDigits(line: string, k: nat, m: LineSpan)
    requires LineMatchAt(line, k) == Some(m)
    ensures IsDigit(line[m.pathEnd - 1]) && line[m.blockStart..m.blockEnd] != [] && AllDigits(line[m.blockStart..m.blockEnd])
  {
    assert IsDigit(line[m.pathEnd - 1]) by {
      assert PathEnd(line, k) == Some(m.pathEnd);
      PathEndShape(line, k);
    }
    assert forall j | m.blockStart <= j < m.blockEnd :: IsDigit(line[j]) by {
      LineMatchAtDigits(line, k);
    }
    AllDigitsSlice(line, m.blockStart, m.blockEnd);
  }

  /** `part_num` is the one character that ends the path. */
  lemma CapturedPartNum(line: string, m: LineSpan)
    requires SpanFits(line, m)
    ensures CapturesOf(line, m).partNum == Some([line[m.pathEnd - 1]])
  {
    assert line[m.pathEnd - 1..m.pathEnd] == [line[m.pathEnd - 1]];
  }

  /** Decoding the groups: a one-digit `part_num` always parses; the start block parses unless it overflows. */
  lemma PartitionOfGroups(name: string, digit: char, digits: string, rest: string)
    requires IsDigit(digit) && digits != [] && AllDigits(digits)
    ensures PartitionOfCaptures(Some(LineCaptures(Some(name), Some([digit]), Some(digits), Some(rest)))) ==
      if DecimalValue(digits) <= USIZE_MAX then Ok(Partition(DigitValue(digit), DecimalValue(digits), name, Tokens(rest)))
      else Err(BadStartBlock(digits, PosOverflow))
  {
    assert [digit][..0] == [];
    ParseDigits([digit]);
    ParseDigits(digits);
  }

  /** `bad line` is reported exactly for the lines `is_sfdisk_partition_line` rejects. */
  lemma PartitionOfLineBadLine(line: string)
    ensures PartitionOfLine(line) == Err(BadLine) <==> !IsSfdiskPartitionLine(line)
  {
    if IsSfdiskPartitionLine(line) {
      var m := PartitionOfLineMatched(line);
    }
  }

  /** Every failure is either `bad line` or a start block that overflows a `usize`. */
  lemma PartitionOfLineErr(line: string)
    requires PartitionOfLine(line).Err?
    ensures var e := PartitionOfLine(line).error;
      e == BadLine || (e.BadStartBlock? && e.kind == PosOverflow && AllDigits(e.startBlock) && DecimalValue(e.startBlock) > USIZE_MAX)
  {
    if IsSfdiskPartitionLine(line) {
      var m := PartitionOfLineMatched(line);
    }
  }

  /** `/dev/`, then word characters, the last of them a digit. */
  predicate PathShape(name: string) {
    |name| >= 7 && LiteralAt(name, 0, "/dev/") && IsDigit(name[|name| - 1])
    && forall m | 5 <= m < |name| :: IsWordChar(name[m])
  }

  /**
    A parsed name is a device path ending in a digit, and the designation is
    that last digit alone: `/dev/sda12` gets designation 2.
   */
  lemma PartitionOfLineName(line: string)
    requires PartitionOfLine(line).Ok?
    ensures var p := PartitionOfLine(line).value;
      PathShape(p.name) && p.designation == DigitValue(p.name[|p.name| - 1]) && p.designation <= 9
  {
    var m := PartitionOfLineOk(line);
    MatchedPath(line, m.start, m);
  }

  /** A successful parse, in terms of the leftmost match. */
  lemma PartitionOfLineOk(line: string) returns (m: LineSpan)
    requires PartitionOfLine(line).Ok?
    ensures LineMatchAt(line, m.start) == Some(m) && IsDigit(line[m.pathEnd - 1])
    ensures var p := PartitionOfLine(line).value;
      && p.name == line[m.start..m.pathEnd] && p.designation == DigitValue(line[m.pathEnd - 1])
  {
    PartitionOfLineBadLine(line);
    m := PartitionOfLineMatched(line);
  }

  /** The path of a match is `/dev/` and word characters ending in a digit. */
  lemma MatchedPath(line: string, k: nat, m: LineSpan)
    requires LineMatchAt(line, k) == Some(m)
    ensures var name := line[k..m.pathEnd];
      PathShape(name) && name[|name| - 1] == line[m.pathEnd - 1]
  {
    assert PathEnd(line, k) == Some(m.pathEnd);
    PathEndShape(line, k);
    PathShapeOfSlice(line, k, m.pathEnd);
  }

  lemma PathShapeOfSlice(s: string, k: nat, e: nat)
    requires k + 7 <= e <= |s| && LiteralAt(s, k, "/dev/") && IsDigit(s[e - 1])
    requires forall m | k + 5 <= m < e :: IsWordChar(s[m])
    ensures PathShape(s[k..e])
  {
    var name := s[k..e];
    assert forall j | 0 <= j < |name| :: name[j] == s[k + j];
    LiteralAtWindow(name, 0, s, k, "/dev/");
  }

  /**
    The extras are the tokens of the text after the start block's comma, up
    to the end of the line: none is empty or holds whitespace, and together
    they are that text with its whitespace taken out, in order.
   */
  lemma PartitionOfLineExtras(line: string) returns (rest: string)
    requires PartitionOfLine(line).Ok?
    ensures var p := PartitionOfLine(line).value;
      && (exists m :: FirstLineMatch(line, 0) == Some(m) && rest == line[m.blockEnd + 1..m.restEnd])
      && p.extras == Tokens(rest)
      && (forall k | 0 <= k < |p.extras| :: IsToken(p.extras[k]))
      && Flatten(p.extras) == NonSpaceFrom(rest, 0)
  {
    PartitionOfLineBadLine(line);
    var m := PartitionOfLineMatched(line);
    rest := line[m.blockEnd + 1..m.restEnd];
    TokensKeepText(rest, 0);
  }

  // ---------------------------------------------------------------------------
  // Reading back a line laid out the way `sfdisk -d` writes it
  // ---------------------------------------------------------------------------

  /**
    The line pattern matches at the start of `s`, with the path ending at
    `e`, the `:` at `q`, the gap after it ending at `d`, `start=` at `t`
    (one past `d` when a second `:` sits at `d`), the start block's digits
    in `[b, c)`, the comma at `c`, and no line break after it.
   */
  predicate LaidOut(s: string, e: nat, q: nat, d: nat, t: nat, b: nat, c: nat) {
    && 7 <= e < q < |s| && LiteralAt(s, 0, "/dev/") && IsDigit(s[e - 1])
    && (forall m | 5 <= m < e :: IsWordChar(s[m]))
    && (forall m | e <= m < q :: IsSpace(s[m])) && s[q] == ':'
    && q + 1 < d < |s| && (forall m | q + 1 <= m < d :: IsSpace(s[m]))
    && (t == d || (t == d + 1 && s[d] == ':')) && LiteralAt(s, t, "start=")
    && t + 6 < b < c < |s| && (forall m | t + 6 <= m < b :: IsSpace(s[m]))
    && (forall m | b <= m < c :: IsDigit(s[m])) && s[c] == ','
    && (forall m | c < m < |s| :: s[m] != '\n')
  }

  lemma PathEndOfLayout(s: string, e: nat, q: nat, d: nat, t: nat, b: nat, c: nat)
    requires LaidOut(s, e, q, d, t, b, c)
    ensures PathEnd(s, 0) == Some(e)
  {
    RunEndUnique(s, 5, Word, e);
  }

  lemma BlockStartOfLayout(s: string, e: nat, q: nat, d: nat, t: nat, b: nat, c: nat)
    requires LaidOut(s, e, q, d, t, b, c)
    ensures BlockStart(s, e) == Some(b)
  {
    RunEndUnique(s, e, Space, q);
    RunEndUnique(s, q + 1, Space, d);
    if t == d {
      assert s[d] == 's';
    }
    RunEndUnique(s, t + 6, Space, b);
  }

  lemma LineMatchOfLayout(s: string, e: nat, q: nat, d: nat, t: nat, b: nat, c: nat)
    requires LaidOut(s, e, q, d, t, b, c)
    ensures LineMatchAt(s, 0) == Some(LineSpan(0, e, b, c, |s|))
  {
    PathEndOfLayout(s, e, q, d, t, b, c);
    BlockStartOfLayout(s, e, q, d, t, b, c);
    RunEndUnique(s, b, Digit, c);
    RunEndUnique(s, c + 1, NotNewline, |s|);
  }

  /** A line laid out this way is read into its path, last digit, start block and the tokens after the comma. */
  lemma PartitionOfLayout(s: string, e: nat, q: nat, d: nat, t: nat, b: nat, c: nat)
    requires LaidOut(s, e, q, d, t, b, c)
    ensures AllDigits(s[b..c])
    ensures PartitionOfLine(s) ==
      if DecimalValue(s[b..c]) <= USIZE_MAX then Ok(Partition(DigitValue(s[e - 1]), DecimalValue(s[b..c]), s[0..e], Tokens(s[c + 1..|s|])))
      else Err(BadStartBlock(s[b..c], PosOverflow))
  {
    assert FirstLineMatch(s, 0) == Some(LineSpan(0, e, b, c, |s|)) by {
      LineMatchOfLayout(s, e, q, d, t, b, c);
    }
    var m := PartitionOfLineMatched(s);
  }

  /** At least one whitespace character and nothing else. */
  predicate IsGap(g: string) {
    g != [] && AllSpace(g)
  }

  /** Text without a line break. */
  predicate OneLine(t: string) {
    forall m | 0 <= m < |t| :: t[m] != '\n'
  }

  /** The optional second `:` before `start=`. */
  function SecondColon(colon: bool): (r: string)
    ensures |r| <= 1 && (r != [] ==> r[0] == ':')
  {
    if colon then ":" else ""
  }

  /** A partition line: path, gaps around `:`, an optional second `:`, `start=`, a gap, the start block, `,` and the rest. */
  function SfdiskLine(name: string, gap1: string, gap2: string, colon: bool, gap3: string, digits: string, rest: string): string {
    name + gap1 + ":" + gap2 + SecondColon(colon) + "start=" + gap3 + digits + "," + rest
  }

  /** The slices of `s` between the given positions spell the pieces of a partition line. */
  predicate PiecesAt(s: string, e: nat, q: nat, d: nat, t: nat, b: nat, c: nat,
                     name: string, gap1: string, gap2: string, ct: string, gap3: string, digits: string, rest: string) {
    && e <= q && q + 1 <= d <= t && t + 6 <= b <= c < |s|
    && s[0..e] == name && s[e..q] == gap1 && s[q..q + 1] == ":" && s[q + 1..d] == gap2
    && s[d..t] == ct && s[t..t + 6] == "start=" && s[t + 6..b] == gap3
    && s[b..c] == digits && s[c..c + 1] == "," && s[c + 1..|s|] == rest
  }

  /** Where each piece of a line put together this way sits in it. */
  lemma LinePieces(s: string, name: string, gap1: string, gap2: string, ct: string, gap3: string, digits: string, rest: string)
      returns (e: nat, q: nat, d: nat, t: nat, b: nat, c: nat)
    requires s == name + gap1 + ":" + gap2 + ct + "start=" + gap3 + digits + "," + rest
    ensures PiecesAt(s, e, q, d, t, b, c, name, gap1, gap2, ct, gap3, digits, rest)
  {
    var p1 := name + gap1;
    var p2 := p1 + ":";
    var p3 := p2 + gap2;
    var p4 := p3 + ct;
    var p5 := p4 + "start=";
    var p6 := p5 + gap3;
    var p7 := p6 + digits;
    var p8 := p7 + ",";
    e := |name|;
    q := e + |gap1|;
    d := q + 1 + |gap2|;
    t := d + |ct|;
    b := t + 6 + |gap3|;
    c := b + |digits|;
    assert s[0..|s|] == s;
    SplitSlice(s, 0, c + 1, |s|, p8, rest);
    SplitSlice(s, 0, c, c + 1, p7, ",");
    SplitSlice(s, 0, b, c, p6, digits);
    SplitSlice(s, 0, t + 6, b, p5, gap3);
    SplitSlice(s, 0, t, t + 6, p4, "start=");
    SplitSlice(s, 0, d, t, p3, ct);
    SplitSlice(s, 0, q + 1, d, p2, gap2);
    SplitSlice(s, 0, q, q + 1, p1, ":");
    SplitSlice(s, 0, e, q, name, gap1);
  }

  /** A line whose slices spell well-formed pieces is laid out the way the pattern expects. */
  lemma LaidOutOfSlices(s: string, e: nat, q: nat, d: nat, t: nat, b: nat, c: nat,
                        name: string, gap1: string, gap2: string, ct: string, gap3: string, digits: string, rest: string)
    requires PathShape(name) && IsGap(gap1) && IsGap(gap2) && IsGap(gap3) && (ct == "" || ct == ":")
    requires digits != [] && AllDigits(digits) && OneLine(rest)
    requires PiecesAt(s, e, q, d, t, b, c, name, gap1, gap2, ct, gap3, digits, rest)
    ensures LaidOut(s, e, q, d, t, b, c) && s[e - 1] == name[|name| - 1]
  {
    PathOfSlice(s, name);
    GapOfSlice(s, e, q, gap1);
    GapOfSlice(s, q + 1, d, gap2);
    GapOfSlice(s, t + 6, b, gap3);
    assert s[q] == s[q..q + 1][0];
    assert s[c] == s[c..c + 1][0];
    if ct == ":" {
      assert s[d] == s[d..t][0];
    }
    LiteralAtSpec(s, t, "start=");
    assert forall m | b <= m < c :: IsDigit(s[m]) by {
      SliceSpells(s, b, c, digits);
    }
    assert forall m | c < m < |s| :: s[m] != '\n' by {
      SliceSpells(s, c + 1, |s|, rest);
    }
  }

  /** A slice at the start of `s` that spells a device path puts that path there. */
  lemma PathOfSlice(s: string, name: string)
    requires PathShape(name) && |name| <= |s| && s[0..|name|] == name
    ensures LiteralAt(s, 0, "/dev/") && IsDigit(s[|name| - 1]) && s[|name| - 1] == name[|name| - 1]
    ensures forall m | 5 <= m < |name| :: IsWordChar(s[m])
  {
    SliceSpells(s, 0, |name|, name);
    LiteralAtWindow(name, 0, s, 0, "/dev/");
  }

  /** A slice that spells a gap is all whitespace. */
  lemma GapOfSlice(s: string, i: nat, j: nat, gap: string)
    requires IsGap(gap) && i <= j <= |s| && s[i..j] == gap
    ensures forall m | i <= m < j :: IsSpace(s[m])
  {
    SliceSpells(s, i, j, gap);
  }

  /** A laid-out line whose path, start block and rest spell `name`, `digits` and `rest` is read into them. */
  lemma PartitionOfLaidOut(s: string, e: nat, q: nat, d: nat, t: nat, b: nat, c: nat, name: string, digits: string, rest: string)
    requires LaidOut(s, e, q, d, t, b, c) && s[0..e] == name && s[b..c] == digits && s[c + 1..|s|] == rest
    requires name != [] && s[e - 1] == name[|name| - 1]
    ensures AllDigits(digits)
    ensures PartitionOfLine(s) ==
      if DecimalValue(digits) <= USIZE_MAX then Ok(Partition(DigitValue(name[|name| - 1]), DecimalValue(digits), name, Tokens(rest)))
      else Err(BadStartBlock(digits, PosOverflow))
  {
    PartitionOfLayout(s, e, q, d, t, b, c);
  }

  /**
    Reading a well-formed line gives back what it was made of: the path, its
    last digit as designation, the start block's value, and the tokens of
    the rest; or the overflow error when the start block does not fit.
   */
  lemma PartitionOfSfdiskLine(name: string, gap1: string, gap2: string, colon: bool, gap3: string, digits: string, rest: string)
    requires PathShape(name) && IsGap(gap1) && IsGap(gap2) && IsGap(gap3)
    requires digits != [] && AllDigits(digits) && OneLine(rest)
    ensures PartitionOfLine(SfdiskLine(name, gap1, gap2, colon, gap3, digits, rest)) ==
      if DecimalValue(digits) <= USIZE_MAX then Ok(Partition(DigitValue(name[|name| - 1]), DecimalValue(digits), name, Tokens(rest)))
      else Err(BadStartBlock(digits, PosOverflow))
  {
    var s := SfdiskLine(name, gap1, gap2, colon, gap3, digits, rest);
    var e, q, d, t, b, c := LinePieces(s, name, gap1, gap2, SecondColon(colon), gap3, digits, rest);
    LaidOutOfSlices(s, e, q, d, t, b, c, name, gap1, gap2, SecondColon(colon), gap3, digits, rest);
    PartitionOfLaidOut(s, e, q, d, t, b, c, name, digits, rest);
  }

  // ---------------------------------------------------------------------------
  // The lines of the parse test
  // ---------------------------------------------------------------------------

  /**
    The fields after the start block in the test lines, as `split_whitespace`
    yields them. The two long fields are written in pieces, each checked to
    be free of whitespace on its own.
   */
  const TestExtras: seq<string> := ["size=", "60086239,", TypeField, UuidField, "it", "ain't", "me", "babe"]

  const TypeField: string := "type=0FC63DAF-" + "8483-4772-8E79-" + "3D69D8477DE4,"
  const UuidField: string := "uuid=AAAAAAAA-" + "BBBB-CCCC-DDDD-" + "EEEEEEEEEEEE,"

  lemma TypeFieldToken()
    ensures IsToken(TypeField)
  {
    TokenJoin("type=0FC63DAF-", "8483-4772-8E79-");
    TokenJoin("type=0FC63DAF-" + "8483-4772-8E79-", "3D69D8477DE4,");
  }

  lemma UuidFieldToken()
    ensures IsToken(UuidField)
  {
    TokenJoin("uuid=AAAAAAAA-", "BBBB-CCCC-DDDD-");
    TokenJoin("uuid=AAAAAAAA-" + "BBBB-CCCC-DDDD-", "EEEEEEEEEEEE,");
  }

  /** The whitespace in front of each of those fields in the test lines. */
  const TestGaps: seq<string> := [" ", " ", " ", " ", "    ", " ", " ", "    "]

  /** The test lines' text after the start block's comma. */
  function TestRest(): string {
    Spaced(TestGaps, TestExtras)
  }

  lemma TestRestTokens()
    ensures OneLine(TestRest()) && Tokens(TestRest()) == TestExtras
  {
    TestExtrasSpaced(TestGaps);
  }

  /** The test fields spaced by single spaces or runs of four are one line and split back into those fields. */
  lemma TestExtrasSpaced(gaps: seq<string>)
    requires |gaps| == |TestExtras| && forall k | 0 <= k < |gaps| :: gaps[k] == " " || gaps[k] == "    "
    ensures OneLine(Spaced(gaps, TestExtras)) && Tokens(Spaced(gaps, TestExtras)) == TestExtras
  {
    TestExtrasTokens();
    TokensOfSpaced(gaps, TestExtras);
    SpacedOneLine(gaps, TestExtras);
  }

  /** Every test field is a whitespace-free, non-empty token. */
  lemma TestExtrasTokens()
    ensures forall k | 0 <= k < |TestExtras| :: IsToken(TestExtras[k])
  {
    TypeFieldToken();
    UuidFieldToken();
    assert IsToken(TestExtras[0]) && IsToken(TestExtras[1]);
    assert IsToken(TestExtras[4]) && IsToken(TestExtras[5]) && IsToken(TestExtras[6]) && IsToken(TestExtras[7]);
  }

  /** Tokens hold no line break, so spacing them with gaps that hold none gives one line. */
  lemma {:induction false} SpacedOneLine(gaps: seq<string>, ts: seq<string>)
    requires |gaps| == |ts|
    requires forall k | 0 <= k < |gaps| :: OneLine(gaps[k])
    requires forall k | 0 <= k < |ts| :: IsToken(ts[k])
    ensures OneLine(Spaced(gaps, ts))
  {
    if ts != [] {
      var r := Spaced(gaps[1..], ts[1..]);
      SpacedOneLine(gaps[1..], ts[1..]);
      var x := gaps[0] + ts[0] + r;
      forall m | 0 <= m < |x| ensures x[m] != '\n' {
        if m < |gaps[0]| {
          assert x[m] == gaps[0][m];
        } else if m < |gaps[0]| + |ts[0]| {
          assert x[m] == ts[0][m - |gaps[0]|];
        } else {
          assert x[m] == r[m - |gaps[0]| - |ts[0]|];
        }
      }
    }
  }

  /**
    A test line `<path> : start=  2048,<rest>` is read into the path, its
    last digit, start block 2048 and the fields of the rest.
   */
  lemma PartitionOfTestLine(name: string, rest: string)
    requires PathShape(name) && OneLine(rest)
    ensures PartitionOfLine(SfdiskLine(name, " ", " ", false, "  ", "2048", rest))
      == Ok(Partition(DigitValue(name[|name| - 1]), 2048, name, Tokens(rest)))
  {
    assert DecimalString(2048) == "2048";
    PartitionOfSfdiskLine(name, " ", " ", false, "  ", "2048", rest);
  }

  /** The test lines differ only in their path: each is read into that path, its last digit, 2048 and the test fields. */
  lemma PartitionOfTestPath(name: string)
    requires PathShape(name)
    ensures PartitionOfLine(SfdiskLine(name, " ", " ", false, "  ", "2048", TestRest()))
      == Ok(Partition(DigitValue(name[|name| - 1]), 2048, name, TestExtras))
  {
    TestRestTokens();
    PartitionOfTestLine(name, TestRest());
  }

  /** A test path, and the designation its last digit gives. */
  lemma TestPath(name: string, d: nat)
    requires name == "/dev/" + "sda1" || name == "/dev/" + "nvme0n1p1" || name == "/dev/" + "sda12"
    requires d == if name == "/dev/" + "sda12" then 2 else 1
    ensures PathShape(name) && DigitValue(name[|name| - 1]) == d
  {
  }

  /** `/dev/sda1 : start=  2048, size= 60086239, …,    it ain't me    babe` gives partition 1 of `/dev/sda1`. */
  lemma PartitionOfLineExampleSda1()
    ensures PartitionOfLine(SfdiskLine("/dev/" + "sda1", " ", " ", false, "  ", "2048", TestRest()))
      == Ok(Partition(1, 2048, "/dev/" + "sda1", TestExtras))
  {
    TestPath("/dev/" + "sda1", 1);
    PartitionOfTestPath("/dev/" + "sda1");
  }

  /** The same fields after `/dev/nvme0n1p1` give partition 1 of `/dev/nvme0n1p1`. */
  lemma PartitionOfLineExampleNvme0n1p1()
    ensures PartitionOfLine(SfdiskLine("/dev/" + "nvme0n1p1", " ", " ", false, "  ", "2048", TestRest()))
      == Ok(Partition(1, 2048, "/dev/" + "nvme0n1p1", TestExtras))
  {
    TestPath("/dev/" + "nvme0n1p1", 1);
    PartitionOfTestPath("/dev/" + "nvme0n1p1");
  }

  /** Only the last digit of the path is `part_num`: `/dev/sda12` is read as partition 2. */
  lemma PartitionOfLineExampleSda12()
    ensures PartitionOfLine(SfdiskLine("/dev/" + "sda12", " ", " ", false, "  ", "2048", TestRest()))
      == Ok(Partition(2, 2048, "/dev/" + "sda12", TestExtras))
  {
    TestPath("/dev/" + "sda12", 2);
    PartitionOfTestPath("/dev/" + "sda12");
  }
}
