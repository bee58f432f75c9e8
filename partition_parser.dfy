/**
  The position-driven partition-line parser of src/partition/parser.rs. A
  `ParseMap` says, for some 1-based positions of the line's
  whitespace-separated fields, what the field at that position holds. The
  parser walks the fields in order: a field without a map entry is kept as an
  extra; a mapped field is checked against, or read into, the partition.

  The parse is specified by a fold over the fields (`ParseFields`), and
  `LineParser.Foo` is the loop that computes it. The lemmas characterise the
  fold without unfolding it: when it succeeds, which error it reports, where
  the extras, the name and the start block come from.
 */
module PartitionParser {
  import opened Wrappers
  import opened Text
  import opened Partitions
  import PartitionParse

  /** What a mapped field position holds. */
  datatype SfdiskPartitionInfo = PartName | PartNameSep | StartText | StartBlock

  /** Field position (1-based) to what the field holds and, for the literal fields, its expected text. */
  type ParseMap = map<nat, (SfdiskPartitionInfo, Option<string>)>

  /**
    The ways `foo` fails, one per `return Err(...)` of the source, with the
    text each message names. `ExpectedValueMissing` stands for the panic of
    `expected_value.unwrap()` on a separator or start-text entry without a value.
   */
  datatype ParserError =
    | BadPartNum(partNum: string, kind: IntErrorKind)
    | MissingPartNum(field: string)
    | WrongSeparator(separator: string)
    | WrongStartText(startText: string)
    | BadStartBlock(startBlock: string, kind: IntErrorKind)
    | ExpectedValueMissing(position: nat)

  // ---------------------------------------------------------------------------
  // `str::split` with a string pattern
  // ---------------------------------------------------------------------------

  /** The leftmost occurrence of `pat` in `s` at or after `k`. */
  function FindFrom(s: string, pat: string, k: nat): (r: Option<nat>)
    ensures r.Some? ==> k <= r.value && LiteralAt(s, r.value, pat)
    ensures r.Some? ==> forall j | k <= j < r.value :: !LiteralAt(s, j, pat)
    ensures r.None? ==> forall j: nat | k <= j :: !LiteralAt(s, j, pat)
    decreases |s| + 1 - k
  {
    if k > |s| then None
    else if LiteralAt(s, k, pat) then Some(k)
    else FindFrom(s, pat, k + 1)
  }

  /** The leftmost occurrence is unique: an occurrence with none before it is the one found. */
  lemma {:induction false} FindFromIs(s: string, pat: string, k: nat, p: nat)
    requires k <= p && LiteralAt(s, p, pat)
    requires forall j | k <= j < p :: !LiteralAt(s, j, pat)
    ensures FindFrom(s, pat, k) == Some(p)
    decreases p - k
  {
    if k < p {
      FindFromIs(s, pat, k + 1, p);
    }
  }

  /**
    `s.split(pat).collect::<Vec<&str>>().get(1)`: the text from the end of
    the first match of `pat` to the start of the next match, or to the end
    of `s`. Matches do not overlap, so the next match starts at least
    `|pat|` further on; an empty pattern matches at every character
    boundary, so its next match is one character further on.
   */
  function SecondPiece(s: string, pat: string): (r: Option<string>)
    ensures r.None? <==> forall j: nat :: !LiteralAt(s, j, pat)
    ensures r.Some? ==> |pat| + |r.value| <= |s|
  {
    match FindFrom(s, pat, 0)
    case None => None
    case Some(p) =>
      var q := FindFrom(s, pat, p + if pat == [] then 1 else |pat|);
      Some(s[p + |pat|..if q.Some? then q.value else |s|])
  }

  /**
    `t` is the second piece of `s` split at `pat`, found with the first match
    at `p`: no match starts before `p` or inside `t`, and `t` runs to the end
    of `s` or to the next match.
   */
  predicate SecondPieceAt(s: string, pat: string, p: nat, t: string) {
    p + |pat| + |t| <= |s| && s[p..p + |pat|] == pat && s[p + |pat|..p + |pat| + |t|] == t
    && (forall j | 0 <= j < p :: !LiteralAt(s, j, pat))
    && (forall j | p + |pat| <= j < p + |pat| + |t| :: !LiteralAt(s, j, pat))
    && (p + |pat| + |t| == |s| || LiteralAt(s, p + |pat| + |t|, pat))
  }

  /** For a non-empty pattern, the second piece sits between the first match and the next one (or the end). */
  lemma SecondPieceFound(s: string, pat: string)
    requires pat != [] && SecondPiece(s, pat).Some?
    ensures exists p: nat :: SecondPieceAt(s, pat, p, SecondPiece(s, pat).value)
  {
    var t := SecondPiece(s, pat).value;
    var p := FindFrom(s, pat, 0).value;
    LiteralAtSpec(s, p, pat);
    assert SecondPieceAt(s, pat, p, t);
  }

  /** Conversely, any text placed between a first match and the next match (or the end) is the second piece. */
  lemma SecondPieceOf(s: string, pat: string, p: nat, t: string)
    requires pat != [] && SecondPieceAt(s, pat, p, t)
    ensures SecondPiece(s, pat) == Some(t)
  {
    LiteralAtSpec(s, p, pat);
    FindFromIs(s, pat, 0, p);
    var e := p + |pat| + |t|;
    if e < |s| {
      FindFromIs(s, pat, p + |pat|, e);
    }
  }

  /** With an empty pattern the second piece is the first character (empty for empty text). */
  lemma SecondPieceEmptyPattern(s: string)
    ensures SecondPiece(s, "") == Some(if s == [] then [] else s[..1])
  {
    assert LiteralAt(s, 0, "");
    FindFromIs(s, "", 0, 0);
    if s != [] {
      assert LiteralAt(s, 1, "");
      FindFromIs(s, "", 1, 1);
    }
  }

  /** `s.split(",").collect::<Vec<&str>>().get(0)`, which always exists: the text before the first comma. */
  function BeforeComma(s: string): (r: string)
    ensures |r| <= |s| && r == s[..|r|]
    ensures forall m | 0 <= m < |r| :: r[m] != ','
    ensures r == s || s[|r|] == ','
  {
    RunEndShape(s, 0, NotComma);
    s[..RunEnd(s, 0, NotComma)]
  }

  /** Comma-free text followed by nothing or by a comma is what comes before the comma. */
  lemma BeforeCommaOf(d: string, rest: string)
    requires forall m | 0 <= m < |d| :: d[m] != ','
    requires rest == [] || rest[0] == ','
    ensures BeforeComma(d + rest) == d
  {
    RunEndUnique(d + rest, 0, NotComma, |d|);
  }

  // ---------------------------------------------------------------------------
  // One field
  // ---------------------------------------------------------------------------

  /** The kind the map gives the field at index `i`, that is at position `i + 1`, if any. */
  function KindAt(parseMap: ParseMap, i: nat): Option<SfdiskPartitionInfo> {
    if i + 1 in parseMap then Some(parseMap[i + 1].0) else None
  }

  /** What a field that passes its check does to the partition being built. */
  datatype FieldEffect = Extra | SetName(designation: Usize, name: string) | SetStart(startBlock: Usize) | Checked

  /**
    The check of the field at index `i`, looked up in the map at position
    `i + 1` (the body of the loop of `foo`). An unmapped field is an extra. A partition name must contain
    `baseName`, and the piece after it must parse as a `usize`. A separator
    or start text must equal the map's expected text. A start block is the
    `u64` before the field's first comma.
   */
  function FieldCheck(parseMap: ParseMap, baseName: string, i: nat, field: string): (r: Result<FieldEffect, ParserError>)
    ensures r == Ok(Extra) <==> KindAt(parseMap, i) == None
    ensures r.Ok? ==> (r.value.SetName? <==> KindAt(parseMap, i) == Some(PartName))
    ensures r.Ok? ==> (r.value.SetStart? <==> KindAt(parseMap, i) == Some(StartBlock))
    ensures r.Ok? && r.value.SetName? ==> r.value.name == field
    ensures r.Ok? && r.value.Checked? ==> parseMap[i + 1].1 == Some(field)
    ensures r == Err(MissingPartNum(field)) <==> KindAt(parseMap, i) == Some(PartName) && forall j: nat :: !LiteralAt(field, j, baseName)
  {
    var pos := i + 1;
    if pos !in parseMap then Ok(Extra)
    else
      var (dataKey, expectedValue) := parseMap[pos];
      match dataKey
      case PartName =>
        (match SecondPiece(field, baseName)
         case None => Err(MissingPartNum(field))
         case Some(partNumStr) =>
           match ParseUsize(partNumStr)
           case Ok(partNum) => Ok(SetName(partNum, field))
           case Err(kind) => Err(BadPartNum(partNumStr, kind)))
      case PartNameSep =>
        (match expectedValue
         case None => Err(ExpectedValueMissing(pos))
         case Some(separator) => if field != separator then Err(WrongSeparator(separator)) else Ok(Checked))
      case StartText =>
        (match expectedValue
         case None => Err(ExpectedValueMissing(pos))
         case Some(startText) => if field != startText then Err(WrongStartText(startText)) else Ok(Checked))
      case StartBlock =>
        var startBlockStr := BeforeComma(field);
        match ParseUsize(startBlockStr)
        case Ok(startBlock) => Ok(SetStart(startBlock))
        case Err(kind) => Err(BadStartBlock(startBlockStr, kind))
  }

  /**
    A name field whose base name is first found at `at`, with `piece` after
    it: the field passes exactly when `piece` is a `usize` (an optional `+`
    and decimal digits that fit), its value becomes the designation, and
    otherwise the piece is reported with the reason it does not parse.
   */
  lemma FieldCheckName(parseMap: ParseMap, baseName: string, i: nat, field: string, at: nat, piece: string)
    requires baseName != [] && KindAt(parseMap, i) == Some(PartName)
    requires SecondPieceAt(field, baseName, at, piece)
    ensures FieldCheck(parseMap, baseName, i, field).Ok? <==>
              var d := UnsignedDigits(piece); d != [] && AllDigits(d) && DecimalValue(d) <= USIZE_MAX
    ensures FieldCheck(parseMap, baseName, i, field).Ok? ==>
              FieldCheck(parseMap, baseName, i, field) == Ok(SetName(DecimalValue(UnsignedDigits(piece)), field))
    ensures ParseUsize(piece).Err? ==>
              FieldCheck(parseMap, baseName, i, field) == Err(BadPartNum(piece, ParseUsize(piece).error))
  {
    SecondPieceOf(field, baseName, at, piece);
    ParseUsizeSpec(piece);
  }

  /** A name field made of the base name and a plain number (and nothing that repeats the base name) gets that number as its designation. */
  lemma FieldCheckNameDigits(parseMap: ParseMap, baseName: string, i: nat, field: string, at: nat, piece: string)
    requires baseName != [] && KindAt(parseMap, i) == Some(PartName)
    requires SecondPieceAt(field, baseName, at, piece)
    requires piece != [] && AllDigits(piece)
    ensures FieldCheck(parseMap, baseName, i, field) ==
              if DecimalValue(piece) <= USIZE_MAX then Ok(SetName(DecimalValue(piece), field)) else Err(BadPartNum(piece, PosOverflow))
  {
    SecondPieceOf(field, baseName, at, piece);
    ParseDigits(piece);
  }

  /**
    A separator or start-text field passes exactly when it equals the map's
    expected text; a different field is reported with the expected text, and
    an entry without expected text is the `unwrap` panic.
   */
  lemma FieldCheckLiteral(parseMap: ParseMap, baseName: string, i: nat, field: string)
    requires KindAt(parseMap, i) == Some(PartNameSep) || KindAt(parseMap, i) == Some(StartText)
    ensures parseMap[i + 1].1 == None ==> FieldCheck(parseMap, baseName, i, field) == Err(ExpectedValueMissing(i + 1))
    ensures FieldCheck(parseMap, baseName, i, field) == Ok(Checked) <==> parseMap[i + 1].1 == Some(field)
    ensures parseMap[i + 1].1.Some? && parseMap[i + 1].1 != Some(field) ==>
              var expected := parseMap[i + 1].1.value;
              FieldCheck(parseMap, baseName, i, field) ==
                Err(if KindAt(parseMap, i) == Some(PartNameSep) then WrongSeparator(expected) else WrongStartText(expected))
  {
  }

  /**
    A start-block field is the text `d` before its first comma, then nothing
    or the comma and what follows: the field passes exactly when `d` is a
    `u64`, whose value becomes the start block, and otherwise `d` is
    reported with the reason it does not parse.
   */
  lemma FieldCheckStart(parseMap: ParseMap, baseName: string, i: nat, d: string, rest: string)
    requires KindAt(parseMap, i) == Some(StartBlock)
    requires forall m | 0 <= m < |d| :: d[m] != ','
    requires rest == [] || rest[0] == ','
    ensures FieldCheck(parseMap, baseName, i, d + rest).Ok? <==>
              var u := UnsignedDigits(d); u != [] && AllDigits(u) && DecimalValue(u) <= USIZE_MAX
    ensures FieldCheck(parseMap, baseName, i, d + rest).Ok? ==>
              FieldCheck(parseMap, baseName, i, d + rest) == Ok(SetStart(DecimalValue(UnsignedDigits(d))))
    ensures ParseUsize(d).Err? ==>
              FieldCheck(parseMap, baseName, i, d + rest) == Err(BadStartBlock(d, ParseUsize(d).error))
  {
    BeforeCommaOf(d, rest);
    ParseUsizeSpec(d);
  }

  function ApplyEffect(p: Partition, e: FieldEffect, field: string): Partition {
    match e
    case Extra => p.(extras := p.extras + [field])
    case SetName(designation, name) => p.(designation := designation, name := name)
    case SetStart(startBlock) => p.(startBlock := startBlock)
    case Checked => p
  }

  // ---------------------------------------------------------------------------
  // The whole line
  // ---------------------------------------------------------------------------

  /** The fields from index `i` on, checked and applied one after the other; the first failing check ends the parse. */
  function FoldFields(fields: seq<string>, parseMap: ParseMap, baseName: string, i: nat, p: Partition): Result<Partition, ParserError>
    requires i <= |fields|
    decreases |fields| - i
  {
    if i == |fields| then Ok(p)
    else
      match FieldCheck(parseMap, baseName, i, fields[i])
      case Err(e) => Err(e)
      case Ok(effect) => FoldFields(fields, parseMap, baseName, i + 1, ApplyEffect(p, effect, fields[i]))
  }

  /** What `LineParser { line, map }.foo(base_name)` returns. */
  function ParseFields(line: string, parseMap: ParseMap, baseName: string): Result<Partition, ParserError> {
    FoldFields(Tokens(line), parseMap, baseName, 0, DefaultPartition())
  }

  /** `LineParser`: a line and the map that says how to read it. */
  datatype LineParser = LineParser(line: string, parseMap: ParseMap)
  {
    /**
      `LineParser::foo`: splits the line at whitespace and walks the fields
      with their 1-based positions, filling a default partition and
      collecting the unmapped fields, and returns at the first field that
      fails its check.
     */
    method Foo(baseName: string) returns (r: Result<Partition, ParserError>)
      ensures r == ParseFields(line, parseMap, baseName)
    {
      var fields := PartitionParse.SplitWhitespace(line);
      var partition := DefaultPartition();
      var extras: seq<string> := [];
      var i := 0;
      while i < |fields|
        invariant i <= |fields|
        invariant FoldFields(fields, parseMap, baseName, i, partition.(extras := extras)) == ParseFields(line, parseMap, baseName)
        invariant partition.extras == []
        decreases |fields| - i
      {
        var field := fields[i];
        if i + 1 !in parseMap {
          extras := extras + [field];
        } else {
          var (dataKey, expectedValue) := parseMap[i + 1];
          match dataKey {
            case PartName =>
              var partNumStr := SecondPiece(field, baseName);
              if partNumStr.Some? {
                var partNum := ParseUsize(partNumStr.value);
                if partNum.Ok? {
                  partition := partition.(designation := partNum.value, name := field);
                  i := i + 1;
                  continue;
                } else {
                  return Err(BadPartNum(partNumStr.value, partNum.error));
                }
              }
              return Err(MissingPartNum(field));
            case PartNameSep =>
              if expectedValue.None? {
                return Err(ExpectedValueMissing(i + 1));
              }
              var separator := expectedValue.value;
              if field != separator {
                return Err(WrongSeparator(separator));
              }
            case StartText =>
              if expectedValue.None? {
                return Err(ExpectedValueMissing(i + 1));
              }
              var startText := expectedValue.value;
              if field != startText {
                return Err(WrongStartText(startText));
              }
            case StartBlock =>
              var startBlockStr := BeforeComma(field);
              var startBlock := ParseUsize(startBlockStr);
              if startBlock.Ok? {
                partition := partition.(startBlock := startBlock.value);
              } else {
                return Err(BadStartBlock(startBlockStr, startBlock.error));
              }
          }
        }
        i := i + 1;
      }
      partition := partition.(extras := extras);
      return Ok(partition);
    }
  }

  // ---------------------------------------------------------------------------
  // What the fold computes
  // ---------------------------------------------------------------------------

  /** The fields from index `i` on whose positions have no map entry, in order. */
  function UnmappedFrom(fields: seq<string>, parseMap: ParseMap, i: nat): (r: seq<string>)
    requires i <= |fields|
    ensures |r| <= |fields| - i
    decreases |fields| - i
  {
    if i == |fields| then []
    else (if KindAt(parseMap, i) == None then [fields[i]] else []) + UnmappedFrom(fields, parseMap, i + 1)
  }

  /** `k` is the index of the last field that the map gives `kind`. */
  predicate LastOfKind(fields: seq<string>, parseMap: ParseMap, kind: SfdiskPartitionInfo, k: nat) {
    k < |fields| && KindAt(parseMap, k) == Some(kind)
    && forall j | k < j < |fields| :: KindAt(parseMap, j) != Some(kind)
  }

  /** The fold succeeds exactly when every field passes its check. */
  lemma {:induction false} FoldFieldsOk(fields: seq<string>, parseMap: ParseMap, baseName: string, i: nat, p: Partition)
    requires i <= |fields|
    ensures FoldFields(fields, parseMap, baseName, i, p).Ok? <==>
              forall k | i <= k < |fields| :: FieldCheck(parseMap, baseName, k, fields[k]).Ok?
    decreases |fields| - i
  {
    if i < |fields| {
      var c := FieldCheck(parseMap, baseName, i, fields[i]);
      if c.Ok? {
        FoldFieldsOk(fields, parseMap, baseName, i + 1, ApplyEffect(p, c.value, fields[i]));
      }
    }
  }

  /** A failing fold reports the error of the first field that fails its check. */
  lemma {:induction false} FoldFieldsFirstError(fields: seq<string>, parseMap: ParseMap, baseName: string, i: nat, p: Partition)
    requires i <= |fields|
    requires FoldFields(fields, parseMap, baseName, i, p).Err?
    ensures exists k | i <= k < |fields| ::
              (forall j | i <= j < k :: FieldCheck(parseMap, baseName, j, fields[j]).Ok?)
              && FieldCheck(parseMap, baseName, k, fields[k]) == Err(FoldFields(fields, parseMap, baseName, i, p).error)
    decreases |fields| - i
  {
    var c := FieldCheck(parseMap, baseName, i, fields[i]);
    if c.Ok? {
      FoldFieldsFirstError(fields, parseMap, baseName, i + 1, ApplyEffect(p, c.value, fields[i]));
      var k :| i + 1 <= k < |fields|
               && (forall j | i + 1 <= j < k :: FieldCheck(parseMap, baseName, j, fields[j]).Ok?)
               && FieldCheck(parseMap, baseName, k, fields[k]) == Err(FoldFields(fields, parseMap, baseName, i + 1, ApplyEffect(p, c.value, fields[i])).error);
      assert forall j | i <= j < k :: FieldCheck(parseMap, baseName, j, fields[j]).Ok?;
    }
  }

  /** A successful fold appends the unmapped fields, in order, to the extras it started with. */
  lemma {:induction false} FoldFieldsExtras(fields: seq<string>, parseMap: ParseMap, baseName: string, i: nat, p: Partition)
    requires i <= |fields|
    requires FoldFields(fields, parseMap, baseName, i, p).Ok?
    ensures FoldFields(fields, parseMap, baseName, i, p).value.extras == p.extras + UnmappedFrom(fields, parseMap, i)
    decreases |fields| - i
  {
    if i < |fields| {
      var c := FieldCheck(parseMap, baseName, i, fields[i]);
      var q := ApplyEffect(p, c.value, fields[i]);
      FoldFieldsExtras(fields, parseMap, baseName, i + 1, q);
      var rest := UnmappedFrom(fields, parseMap, i + 1);
      if c.value == Extra {
        assert UnmappedFrom(fields, parseMap, i) == [fields[i]] + rest;
        assert q.extras + rest == p.extras + ([fields[i]] + rest);
      } else {
        assert UnmappedFrom(fields, parseMap, i) == rest;
        assert q.extras == p.extras;
      }
    }
  }

  /**
    A successful fold keeps the name and designation it started with when no
    field from `i` on is a partition name, and otherwise takes them from the
    last partition-name field.
   */
  lemma {:induction false} FoldFieldsName(fields: seq<string>, parseMap: ParseMap, baseName: string, i: nat, p: Partition)
    requires i <= |fields|
    requires FoldFields(fields, parseMap, baseName, i, p).Ok?
    ensures var r := FoldFields(fields, parseMap, baseName, i, p).value;
      ((forall k | i <= k < |fields| :: KindAt(parseMap, k) != Some(PartName)) ==> r.designation == p.designation && r.name == p.name)
      && forall k | i <= k && LastOfKind(fields, parseMap, PartName, k) ::
           FieldCheck(parseMap, baseName, k, fields[k]) == Ok(SetName(r.designation, r.name))
    decreases |fields| - i
  {
    if i < |fields| {
      var c := FieldCheck(parseMap, baseName, i, fields[i]);
      FoldFieldsName(fields, parseMap, baseName, i + 1, ApplyEffect(p, c.value, fields[i]));
    }
  }

  /**
    A successful fold keeps the start block it started with when no field
    from `i` on is a start block, and otherwise takes it from the last
    start-block field.
   */
  lemma {:induction false} FoldFieldsStart(fields: seq<string>, parseMap: ParseMap, baseName: string, i: nat, p: Partition)
    requires i <= |fields|
    requires FoldFields(fields, parseMap, baseName, i, p).Ok?
    ensures var r := FoldFields(fields, parseMap, baseName, i, p).value;
      ((forall k | i <= k < |fields| :: KindAt(parseMap, k) != Some(StartBlock)) ==> r.startBlock == p.startBlock)
      && forall k | i <= k && LastOfKind(fields, parseMap, StartBlock, k) ::
           FieldCheck(parseMap, baseName, k, fields[k]) == Ok(SetStart(r.startBlock))
    decreases |fields| - i
  {
    if i < |fields| {
      var c := FieldCheck(parseMap, baseName, i, fields[i]);
      FoldFieldsStart(fields, parseMap, baseName, i + 1, ApplyEffect(p, c.value, fields[i]));
    }
  }

  /** When no field from `i` on is mapped, the unmapped fields are all of them. */
  lemma {:induction false} UnmappedFromAll(fields: seq<string>, parseMap: ParseMap, i: nat)
    requires i <= |fields|
    requires forall k | i <= k < |fields| :: KindAt(parseMap, k) == None
    ensures UnmappedFrom(fields, parseMap, i) == fields[i..]
    decreases |fields| - i
  {
    if i < |fields| {
      UnmappedFromAll(fields, parseMap, i + 1);
      assert fields[i..] == [fields[i]] + fields[i + 1..];
    }
  }

  // ---------------------------------------------------------------------------
  // The parser's promises, on whole lines
  // ---------------------------------------------------------------------------

  /** `foo` succeeds exactly when every field of the line passes the check for its position. */
  lemma ParseFieldsOk(line: string, parseMap: ParseMap, baseName: string)
    ensures ParseFields(line, parseMap, baseName).Ok? <==>
              forall k | 0 <= k < |Tokens(line)| :: FieldCheck(parseMap, baseName, k, Tokens(line)[k]).Ok?
  {
    FoldFieldsOk(Tokens(line), parseMap, baseName, 0, DefaultPartition());
  }

  /** When `foo` fails, it is with the error of the first field that fails its check. */
  lemma ParseFieldsError(line: string, parseMap: ParseMap, baseName: string)
    requires ParseFields(line, parseMap, baseName).Err?
    ensures var fields := Tokens(line);
      exists k | 0 <= k < |fields| ::
        (forall j | 0 <= j < k :: FieldCheck(parseMap, baseName, j, fields[j]).Ok?)
        && FieldCheck(parseMap, baseName, k, fields[k]) == Err(ParseFields(line, parseMap, baseName).error)
  {
    FoldFieldsFirstError(Tokens(line), parseMap, baseName, 0, DefaultPartition());
  }

  /**
    On success, the extras are the fields without a map entry in their
    original order; the name and designation come from the last
    partition-name field and the start block from the last start-block
    field, and each stays at its default when the line has no such field
    (in particular when the map only names positions past the last field).
   */
  lemma ParseFieldsResult(line: string, parseMap: ParseMap, baseName: string)
    requires ParseFields(line, parseMap, baseName).Ok?
    ensures var fields, r := Tokens(line), ParseFields(line, parseMap, baseName).value;
      && r.extras == UnmappedFrom(fields, parseMap, 0)
      && ((forall k | 0 <= k < |fields| :: KindAt(parseMap, k) != Some(PartName)) ==> r.designation == 0 && r.name == "")
      && (forall k: nat | LastOfKind(fields, parseMap, PartName, k) :: FieldCheck(parseMap, baseName, k, fields[k]) == Ok(SetName(r.designation, r.name)))
      && ((forall k | 0 <= k < |fields| :: KindAt(parseMap, k) != Some(StartBlock)) ==> r.startBlock == 0)
      && (forall k: nat | LastOfKind(fields, parseMap, StartBlock, k) :: FieldCheck(parseMap, baseName, k, fields[k]) == Ok(SetStart(r.startBlock)))
  {
    var fields := Tokens(line);
    FoldFieldsExtras(fields, parseMap, baseName, 0, DefaultPartition());
    FoldFieldsName(fields, parseMap, baseName, 0, DefaultPartition());
    FoldFieldsStart(fields, parseMap, baseName, 0, DefaultPartition());
  }

  /** A map whose positions all lie past the last field leaves the default partition with every field as an extra. */
  lemma ParseFieldsUnmapped(line: string, parseMap: ParseMap, baseName: string)
    requires forall pos | pos in parseMap :: pos > |Tokens(line)|
    ensures ParseFields(line, parseMap, baseName) == Ok(Partition(0, 0, "", Tokens(line)))
  {
    var fields := Tokens(line);
    ParseFieldsOk(line, parseMap, baseName);
    ParseFieldsResult(line, parseMap, baseName);
    UnmappedFromAll(fields, parseMap, 0);
    assert fields[0..] == fields;
  }

  /** The header-line test: with an empty map every field is an extra and the numbers stay 0. */
  lemma ParseFieldsEmptyMap(line: string, baseName: string)
    ensures ParseFields(line, map[], baseName) == Ok(Partition(0, 0, "", Tokens(line)))
  {
    ParseFieldsUnmapped(line, map[], baseName);
  }

  // ---------------------------------------------------------------------------
  // The module's test line
  // ---------------------------------------------------------------------------

  /** The map of the test: name, separator, start text and start block in the first four fields. */
  function TestMap(): ParseMap {
    map[1 := (PartName, Some("/dev/sda")), 2 := (PartNameSep, Some(":")),
        3 := (StartText, Some("start=")), 4 := (StartBlock, None)]
  }

  /** The fields of the test line `/dev/sda1 : start=  2048, size= 60086239, ...`. */
  const TestFields: seq<string> := ["/dev/sda" + "1", ":", "start=", "2048" + ","] + PartitionParse.TestExtras

  const TestGaps: seq<string> := ["", " ", " ", "  "] + PartitionParse.TestGaps

  function TestLine(): string {
    Spaced(TestGaps, TestFields)
  }

  lemma TestLineTokens()
    ensures Tokens(TestLine()) == TestFields
  {
    PartitionParse.TestExtrasTokens();
    assert IsToken(TestFields[0]) && IsToken(TestFields[1]) && IsToken(TestFields[2]) && IsToken(TestFields[3]);
    assert forall k | 4 <= k < |TestFields| :: TestFields[k] == PartitionParse.TestExtras[k - 4];
    assert forall k | 4 <= k < |TestGaps| :: TestGaps[k] == PartitionParse.TestGaps[k - 4];
    TokensOfSpaced(TestGaps, TestFields);
  }

  /** The test's partition-name field gives designation 1. */
  lemma TestNameField()
    ensures FieldCheck(TestMap(), "/dev/sda", 0, "/dev/sda" + "1") == Ok(SetName(1, "/dev/sda" + "1"))
  {
    var s := "/dev/sda" + "1";
    assert SecondPieceAt(s, "/dev/sda", 0, "1");
    SecondPieceOf(s, "/dev/sda", 0, "1");
    ParseDigits("1");
  }

  /** The test's start-block field gives 2048. */
  lemma TestStartField()
    ensures FieldCheck(TestMap(), "/dev/sda", 3, "2048" + ",") == Ok(SetStart(2048))
  {
    BeforeCommaOf("2048", ",");
    ParseDigits("2048");
  }

  /** The test line is the line of the regex-based parser's sda1 example. */
  lemma TestLineIsSfdiskLine()
    ensures TestLine() == PartitionParse.SfdiskLine("/dev/" + "sda1", " ", " ", false, "  ", "2048", PartitionParse.TestRest())
  {
    var g, f, rest := PartitionParse.TestGaps, PartitionParse.TestExtras, PartitionParse.TestRest();
    var g3, f3 := ["  "] + g, ["2048" + ","] + f;
    var g2, f2 := [" "] + g3, ["start="] + f3;
    var g1, f1 := [" "] + g2, [":"] + f2;
    assert TestGaps == [""] + g1 && TestFields == ["/dev/sda" + "1"] + f1;
    SpacedCons("  ", "2048" + ",", g, f);
    SpacedCons(" ", "start=", g3, f3);
    SpacedCons(" ", ":", g2, f2);
    SpacedCons("", "/dev/sda" + "1", g1, f1);
    TestLineHead(rest);
  }

  /** The literal head of the test line, piece by piece. */
  lemma TestLineHead(rest: string)
    ensures "" + ("/dev/sda" + "1") + (" " + ":" + (" " + "start=" + ("  " + ("2048" + ",") + rest)))
      == PartitionParse.SfdiskLine("/dev/" + "sda1", " ", " ", false, "  ", "2048", rest)
  {
    assert "" + ("/dev/sda" + "1") + (" " + ":" + (" " + "start=" + ("  " + ("2048" + ",") + rest)))
      == "/dev/sda1 : start=  2048," + rest;
  }

  /** Every field of the test line passes its check. */
  lemma TestFieldsPass()
    ensures forall k | 0 <= k < |TestFields| :: FieldCheck(TestMap(), "/dev/sda", k, TestFields[k]).Ok?
    ensures forall k | 4 <= k < |TestFields| :: KindAt(TestMap(), k) == None
  {
    var m := TestMap();
    forall k | 4 <= k < |TestFields| ensures KindAt(m, k) == None {
      assert k + 1 !in m;
    }
    forall k | 0 <= k < |TestFields| ensures FieldCheck(m, "/dev/sda", k, TestFields[k]).Ok? {
      if k == 0 {
        assert TestFields[0] == "/dev/sda" + "1";
        TestNameField();
      } else if k == 1 {
        assert TestFields[1] == ":";
      } else if k == 2 {
        assert TestFields[2] == "start=";
      } else if k == 3 {
        assert TestFields[3] == "2048" + ",";
        TestStartField();
      }
    }
  }

  /** The unmapped fields of the test line are the eight after the start block. */
  lemma TestFieldsExtras()
    ensures UnmappedFrom(TestFields, TestMap(), 0) == PartitionParse.TestExtras
  {
    TestFieldsPass();
    var m := TestMap();
    UnmappedFromAll(TestFields, m, 4);
    assert KindAt(m, 0) == Some(PartName) && KindAt(m, 1) == Some(PartNameSep);
    assert KindAt(m, 2) == Some(StartText) && KindAt(m, 3) == Some(StartBlock);
    assert UnmappedFrom(TestFields, m, 3) == UnmappedFrom(TestFields, m, 4);
    assert UnmappedFrom(TestFields, m, 1) == UnmappedFrom(TestFields, m, 3);
    assert UnmappedFrom(TestFields, m, 0) == UnmappedFrom(TestFields, m, 1);
    assert TestFields[4..] == PartitionParse.TestExtras;
  }

  /**
    The parser test: the sda1 line read with the test map gives designation
    1, start block 2048, the name `/dev/sda1` and the eight remaining fields
    as extras.
   */
  lemma ParseFieldsExample()
    ensures ParseFields(TestLine(), TestMap(), "/dev/sda") == Ok(Partition(1, 2048, "/dev/sda" + "1", PartitionParse.TestExtras))
  {
    TestLineTokens();
    TestFieldsFold();
  }

  /** The test map's only partition name is the first field and its only start block the fourth. */
  lemma TestLastKinds()
    ensures LastOfKind(TestFields, TestMap(), PartName, 0)
    ensures LastOfKind(TestFields, TestMap(), StartBlock, 3)
  {
    var m := TestMap();
    assert KindAt(m, 1) == Some(PartNameSep) && KindAt(m, 2) == Some(StartText) && KindAt(m, 3) == Some(StartBlock);
    forall k | 4 <= k < |TestFields| ensures KindAt(m, k) == None {
      assert k + 1 !in m;
    }
  }

  lemma TestFieldsFold()
    ensures FoldFields(TestFields, TestMap(), "/dev/sda", 0, DefaultPartition())
            == Ok(Partition(1, 2048, "/dev/sda" + "1", PartitionParse.TestExtras))
  {
    var m, p0 := TestMap(), DefaultPartition();
    TestFieldsPass();
    TestNameField();
    TestStartField();
    TestFieldsExtras();
    FoldFieldsOk(TestFields, m, "/dev/sda", 0, p0);
    FoldFieldsExtras(TestFields, m, "/dev/sda", 0, p0);
    FoldFieldsName(TestFields, m, "/dev/sda", 0, p0);
    FoldFieldsStart(TestFields, m, "/dev/sda", 0, p0);
    assert TestFields[0] == "/dev/sda" + "1" && TestFields[3] == "2048" + ",";
    TestLastKinds();
    var r := FoldFields(TestFields, m, "/dev/sda", 0, p0).value;
    assert r.extras == PartitionParse.TestExtras;
    assert r.designation == 1 && r.name == "/dev/sda" + "1";
    assert r.startBlock == 2048;
  }

  /** On the test line, the position-driven parser and the regex-based parser produce the same partition. */
  lemma ParsersAgreeOnTestLine()
    ensures ParseFields(TestLine(), TestMap(), "/dev/sda").Ok? && PartitionParse.PartitionOfLine(TestLine()).Ok?
    ensures ParseFields(TestLine(), TestMap(), "/dev/sda").value == PartitionParse.PartitionOfLine(TestLine()).value
  {
    SameName();
    TestLineIsSfdiskLine();
    ParseFieldsExample();
    PartitionParse.PartitionOfLineExampleSda1();
  }

  /** The two examples spell the same path. */
  lemma SameName()
    ensures "/dev/sda" + "1" == "/dev/" + "sda1"
  {
  }
}
