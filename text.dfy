/**
  Character classes, maximal runs, decimal numbers and whitespace splitting:
  the pieces of Rust's `regex` and `str` that the partition and device-name
  code uses. Characters are restricted to ASCII: `\d`, `\w`, `\s` and
  `split_whitespace` are the ASCII parts of their Unicode definitions.
 */
module Text {
  import opened Wrappers

  predicate IsDigit(c: char) { '0' <= c <= '9' }

  predicate IsLower(c: char) { 'a' <= c <= 'z' }

  /** `\w`: ASCII letters, digits and underscore */
  predicate IsWordChar(c: char) { IsDigit(c) || IsLower(c) || 'A' <= c <= 'Z' || c == '_' }

  /** `\s` and `char::is_whitespace` on ASCII: space, tab, LF, VT, FF, CR */
  predicate IsSpace(c: char) {
    c == ' ' || c == '\t' || c == '\n' || c == '\U{B}' || c == '\U{C}' || c == '\r'
  }

  /**
    The classes that the patterns repeat with `+` or `*` (`.` is "not a
    newline"), and the run of non-commas that `split(",")` yields first.
   */
  datatype CharClass = Digit | Word | Space | NonSpace | NotNewline | NotComma

  predicate InClass(c: char, cls: CharClass) {
    match cls
    case Digit => IsDigit(c)
    case Word => IsWordChar(c)
    case Space => IsSpace(c)
    case NonSpace => !IsSpace(c)
    case NotNewline => c != '\n'
    case NotComma => c != ','
  }

  /** The end of the maximal run of `cls` characters starting at `k`: what a greedy `cls*` consumes. */
  function RunEnd(s: string, k: nat, cls: CharClass): (e: nat)
    requires k <= |s|
    ensures k <= e <= |s|
    decreases |s| - k
  {
    if k < |s| && InClass(s[k], cls) then RunEnd(s, k + 1, cls) else k
  }

  /** The run is all `cls` characters, and the character after it (if any) is not. */
  lemma {:induction false} RunEndShape(s: string, k: nat, cls: CharClass)
    requires k <= |s|
    ensures var e := RunEnd(s, k, cls);
      (forall m | k <= m < e :: InClass(s[m], cls)) && (e == |s| || !InClass(s[e], cls))
    decreases |s| - k
  {
    if k < |s| && InClass(s[k], cls) {
      RunEndShape(s, k + 1, cls);
    }
  }

  /** A run is determined by where it starts: any maximal run from `k` ends at `RunEnd`. */
  lemma {:induction false} RunEndUnique(s: string, k: nat, cls: CharClass, e: nat)
    requires k <= e <= |s|
    requires forall m | k <= m < e :: InClass(s[m], cls)
    requires e == |s| || !InClass(s[e], cls)
    ensures RunEnd(s, k, cls) == e
    decreases e - k
  {
    if k < e {
      RunEndUnique(s, k + 1, cls, e);
    }
  }

  /** A digit string appended to any text is a run reaching the end. */
  lemma DigitRunToEnd(p: string, d: string)
    requires AllDigits(d)
    ensures RunEnd(p + d, |p|, Digit) == |p| + |d|
  {
    RunEndUnique(d, 0, Digit, |d|);
    RunEndShift(p, d, 0, Digit);
  }

  /** `\d+` followed by the character `c`, starting at `k`: the position of `c`. */
  function DigitsThen(s: string, k: nat, c: char): (r: Option<nat>)
    requires k <= |s|
    ensures r.Some? ==> k < r.value < |s|
  {
    var j := RunEnd(s, k, Digit);
    if j > k && j < |s| && s[j] == c then Some(j) else None
  }

  /** The digits found end just before an occurrence of `c`. */
  lemma DigitsThenShape(s: string, k: nat, c: char)
    requires k <= |s| && DigitsThen(s, k, c).Some?
    ensures var j := DigitsThen(s, k, c).value;
      s[j] == c && forall m | k <= m < j :: IsDigit(s[m])
  {
    RunEndShape(s, k, Digit);
  }

  /** Prepending text shifts where a digit run and its terminator are found. */
  lemma DigitsThenShift(a: string, b: string, k: nat, c: char)
    requires k <= |b|
    ensures DigitsThen(a + b, |a| + k, c) == match DigitsThen(b, k, c) { case None => None case Some(j) => Some(|a| + j) }
  {
    RunEndShift(a, b, k, Digit);
    var j := RunEnd(b, k, Digit);
    if j < |b| {
      assert (a + b)[|a| + j] == b[j];
    }
  }

  /** Prepending text shifts a run by the length of that text. */
  lemma RunEndShift(a: string, b: string, k: nat, cls: CharClass)
    requires k <= |b|
    ensures RunEnd(a + b, |a| + k, cls) == |a| + RunEnd(b, k, cls)
  {
    var e := RunEnd(b, k, cls);
    RunEndShape(b, k, cls);
    assert forall m | k <= m < |b| :: (a + b)[|a| + m] == b[m];
    RunEndUnique(a + b, |a| + k, cls, |a| + e);
  }

  /** The literal text `lit` occurs at position `k` of `s` (compared character by character from `lit[m]` on). */
  predicate LiteralFrom(s: string, k: nat, lit: string, m: nat)
    decreases |lit| - m
  {
    m >= |lit| || (k + m < |s| && s[k + m] == lit[m] && LiteralFrom(s, k, lit, m + 1))
  }

  predicate LiteralAt(s: string, k: nat, lit: string) {
    k + |lit| <= |s| && LiteralFrom(s, k, lit, 0)
  }

  lemma {:induction false} LiteralFromSpec(s: string, k: nat, lit: string, m: nat)
    requires m <= |lit|
    ensures LiteralFrom(s, k, lit, m) <==> forall j | m <= j < |lit| :: k + j < |s| && s[k + j] == lit[j]
    decreases |lit| - m
  {
    if m < |lit| {
      LiteralFromSpec(s, k, lit, m + 1);
      var c := lit[m];  // names `lit[m]`, so the quantifier is instantiated at `m`
    }
  }

  /** Prepending `a` shifts every literal occurrence by `|a|`. */
  lemma LiteralAtShift(a: string, b: string, k: nat, lit: string)
    ensures LiteralAt(a + b, |a| + k, lit) == LiteralAt(b, k, lit)
  {
    if k + |lit| <= |b| {
      LiteralAtWindow(a + b, |a| + k, b, k, lit);
    }
  }

  /** The two halves of a concatenation are its slices. */
  lemma SliceOfConcat(a: string, b: string)
    ensures (a + b)[..|a|] == a && (a + b)[|a|..|a| + |b|] == b
  {
  }

  /** A slice that spells `a + b` splits, at `|a|` characters in, into one spelling `a` and one spelling `b`. */
  lemma SplitSlice(s: string, i: nat, j: nat, k: nat, a: string, b: string)
    requires i <= j <= k <= |s| && j - i == |a| && k - j == |b| && s[i..k] == a + b
    ensures s[i..j] == a && s[j..k] == b
  {
    assert forall m | 0 <= m < |a| :: s[i..j][m] == s[i..k][m];
    assert forall m | j - i <= m < k - i :: s[j..k][m - (j - i)] == s[i..k][m];
  }

  /** The characters of a slice that spells `p` are those of `p`. */
  lemma SliceSpells(s: string, a: nat, b: nat, p: string)
    requires a <= b <= |s| && s[a..b] == p
    ensures forall m | a <= m < b :: s[m] == p[m - a]
  {
    assert forall m | a <= m < b :: s[a..b][m - a] == s[m];
  }

  /** Adjacent slices join up. */
  lemma SliceJoin(s: string, a: nat, b: nat, c: nat)
    requires a <= b <= c <= |s|
    ensures s[a..c] == s[a..b] + s[b..c]
  {
  }

  /** Whether `lit` occurs at a place depends only on the characters there. */
  lemma LiteralAtWindow(s: string, k: nat, t: string, j: nat, lit: string)
    requires k + |lit| <= |s| && j + |lit| <= |t|
    requires forall m | k <= m < k + |lit| :: s[m] == t[m - k + j]
    ensures LiteralAt(s, k, lit) == LiteralAt(t, j, lit)
  {
    LiteralFromSpec(s, k, lit, 0);
    LiteralFromSpec(t, j, lit, 0);
  }

  /** `LiteralAt` is the slice comparison it stands for. */
  lemma LiteralAtSpec(s: string, k: nat, lit: string)
    ensures LiteralAt(s, k, lit) <==> k + |lit| <= |s| && s[k..k + |lit|] == lit
  {
    LiteralFromSpec(s, k, lit, 0);
    if k + |lit| <= |s| {
      assert (forall j | 0 <= j < |lit| :: s[k + j] == lit[j]) <==> s[k..k + |lit|] == lit by {
        if s[k..k + |lit|] == lit {
          forall j | 0 <= j < |lit| ensures s[k + j] == lit[j] {
            assert s[k..k + |lit|][j] == s[k + j];
          }
        }
      }
    }
  }

  // ---------------------------------------------------------------------------
  // Decimal numbers and Rust's `str::parse::<usize>()`
  // ---------------------------------------------------------------------------

  predicate AllDigits(d: string) {
    forall m | 0 <= m < |d| :: IsDigit(d[m])
  }

  /** A slice whose every character is a digit is a digit string. */
  lemma AllDigitsSlice(s: string, a: nat, b: nat)
    requires a <= b <= |s|
    requires forall m | a <= m < b :: IsDigit(s[m])
    ensures AllDigits(s[a..b])
  {
    forall m | 0 <= m < b - a ensures IsDigit(s[a..b][m]) {
      assert s[a..b][m] == s[a + m];
    }
  }

  function DigitValue(c: char): (v: nat)
    requires IsDigit(c)
    ensures v < 10
  {
    c as int - '0' as int
  }

  /** The number a string of decimal digits denotes (leading zeros allowed). */
  function DecimalValue(d: string): nat
    requires AllDigits(d)
  {
    if d == [] then 0 else DecimalValue(d[..|d| - 1]) * 10 + DigitValue(d[|d| - 1])
  }

  function DigitChar(v: nat): (c: char)
    requires v < 10
    ensures IsDigit(c) && DigitValue(c) == v
  {
    ('0' as int + v) as char
  }

  /** The shortest decimal spelling of `n`; `DecimalValue` is its inverse. */
  function DecimalString(n: nat): (d: string)
    ensures d != [] && AllDigits(d)
    ensures DecimalValue(d) == n
    ensures n > 0 ==> d[0] != '0'
  {
    if n < 10 then [DigitChar(n)]
    else
      var d := DecimalString(n / 10) + [DigitChar(n % 10)];
      assert d[..|d| - 1] == DecimalString(n / 10);
      d
  }

  /** A prefix of a digit string never denotes more than the whole string. */
  lemma {:induction false} DecimalPrefixBound(d: string, i: nat)
    requires AllDigits(d) && i <= |d|
    ensures AllDigits(d[..i]) && DecimalValue(d[..i]) <= DecimalValue(d)
    decreases |d| - i
  {
    if i < |d| {
      DecimalPrefixBound(d[..|d| - 1], i);
      assert d[..|d| - 1][..i] == d[..i];
    } else {
      assert d[..i] == d;
    }
  }

  /** The largest `usize` on the 64-bit targets this tool runs on. */
  const USIZE_MAX: nat := 0xFFFF_FFFF_FFFF_FFFF

  type Usize = n: nat | n <= USIZE_MAX

  /** The kinds of `ParseIntError` that `usize::from_str` can report. */
  datatype IntErrorKind = Empty | InvalidDigit | PosOverflow

  /**
    `usize::from_str`: an optional leading `+`, then one or more decimal
    digits whose value fits in 64 bits. Digits are consumed left to right and
    the first offending character (a non-digit, or the digit that overflows)
    decides the error.
   */
  function ParseUsize(s: string): Result<Usize, IntErrorKind> {
    if s == [] then Err(Empty)
    else if (s[0] == '+' || s[0] == '-') && |s| == 1 then Err(InvalidDigit)
    else if s[0] == '+' then Accumulate(s, 1, 0)
    else Accumulate(s, 0, 0)
  }

  function Accumulate(s: string, i: nat, acc: Usize): Result<Usize, IntErrorKind>
    requires i <= |s|
    decreases |s| - i
  {
    if i == |s| then Ok(acc)
    else if !IsDigit(s[i]) then Err(InvalidDigit)
    else if acc * 10 + DigitValue(s[i]) > USIZE_MAX then Err(PosOverflow)
    else Accumulate(s, i + 1, acc * 10 + DigitValue(s[i]))
  }

  /** The digits `ParseUsize` reads: the text after an optional leading `+`. */
  function UnsignedDigits(s: string): string {
    if |s| > 0 && s[0] == '+' then s[1..] else s
  }

  lemma {:induction false} AccumulateSpec(s: string, k: nat, i: nat)
    requires k <= i <= |s|
    requires AllDigits(s[k..i]) && DecimalValue(s[k..i]) <= USIZE_MAX
    ensures Accumulate(s, i, DecimalValue(s[k..i])).Ok? <==> AllDigits(s[k..]) && DecimalValue(s[k..]) <= USIZE_MAX
    ensures Accumulate(s, i, DecimalValue(s[k..i])).Ok? ==> Accumulate(s, i, DecimalValue(s[k..i])).value == DecimalValue(s[k..])
    ensures Accumulate(s, i, DecimalValue(s[k..i])).Err? && AllDigits(s[k..]) ==> Accumulate(s, i, DecimalValue(s[k..i])).error == PosOverflow
    decreases |s| - i
  {
    if i == |s| {
      assert s[k..i] == s[k..];
    } else if !IsDigit(s[i]) {
      assert s[k..][i - k] == s[i];
    } else {
      var next := s[k..i + 1];
      assert next[..|next| - 1] == s[k..i];
      assert AllDigits(next);
      if DecimalValue(next) > USIZE_MAX {
        if AllDigits(s[k..]) {
          DecimalPrefixBound(s[k..], i + 1 - k);
          assert s[k..][..i + 1 - k] == next;
        }
      } else {
        AccumulateSpec(s, k, i + 1);
      }
    }
  }

  /** `usize::from_str` accepts exactly an optional `+` followed by a non-empty digit string that fits. */
  lemma ParseUsizeSpec(s: string)
    ensures ParseUsize(s).Ok? <==>
              var d := UnsignedDigits(s); d != [] && AllDigits(d) && DecimalValue(d) <= USIZE_MAX
    ensures ParseUsize(s).Ok? ==> ParseUsize(s).value == DecimalValue(UnsignedDigits(s))
  {
    if s == [] {
    } else if (s[0] == '+' || s[0] == '-') && |s| == 1 {
      assert !IsDigit(s[0]);
    } else if s[0] == '+' {
      assert s[1..1] == [];
      AccumulateSpec(s, 1, 1);
    } else {
      assert s[0..0] == [] && s[0..] == s;
      AccumulateSpec(s, 0, 0);
    }
  }

  /** On a non-empty string of digits, parsing fails only by overflow. */
  lemma ParseDigits(d: string)
    requires d != [] && AllDigits(d)
    ensures ParseUsize(d) == if DecimalValue(d) <= USIZE_MAX then Ok(DecimalValue(d)) else Err(PosOverflow)
  {
    assert d[0..0] == [] && d[0..] == d;
    AccumulateSpec(d, 0, 0);
  }

  /** Printing a `usize` in decimal and parsing it back gives the same value. */
  lemma ParseUsizeRoundTrip(n: Usize)
    ensures ParseUsize(DecimalString(n)) == Ok(n)
  {
    ParseDigits(DecimalString(n));
  }

  // ---------------------------------------------------------------------------
  // `str::split_whitespace`
  // ---------------------------------------------------------------------------

  /** A token: non-empty and free of whitespace. */
  predicate IsToken(t: string) {
    t != [] && forall m | 0 <= m < |t| :: !IsSpace(t[m])
  }

  /** Two tokens written together make one token. */
  lemma TokenJoin(a: string, b: string)
    requires IsToken(a) && IsToken(b)
    ensures IsToken(a + b)
  {
    assert forall m | |a| <= m < |a + b| :: (a + b)[m] == b[m - |a|];
  }

  /** The whitespace-separated tokens of `s[i..]`, in order. */
  function TokensFrom(s: string, i: nat): (ts: seq<string>)
    requires i <= |s|
    ensures forall k | 0 <= k < |ts| :: IsToken(ts[k])
    decreases |s| - i
  {
    if i == |s| then []
    else if IsSpace(s[i]) then TokensFrom(s, i + 1)
    else
      var e := RunEnd(s, i, NonSpace);
      RunEndShape(s, i, NonSpace);
      [s[i..e]] + TokensFrom(s, e)
  }

  /** `s.split_whitespace()` */
  function Tokens(s: string): (ts: seq<string>)
    ensures forall k | 0 <= k < |ts| :: IsToken(ts[k])
  {
    TokensFrom(s, 0)
  }

  /** Tokenizing the tail of `a + b` that lies in `b` is tokenizing `b`. */
  lemma {:induction false} TokensShift(a: string, b: string, i: nat)
    requires i <= |b|
    ensures TokensFrom(a + b, |a| + i) == TokensFrom(b, i)
    decreases |b| - i
  {
    if i < |b| {
      assert (a + b)[|a| + i] == b[i];
      if IsSpace(b[i]) {
        TokensShift(a, b, i + 1);
      } else {
        RunEndShift(a, b, i, NonSpace);
        var e := RunEnd(b, i, NonSpace);
        assert (a + b)[|a| + i..|a| + e] == b[i..e];
        TokensShift(a, b, e);
      }
    }
  }

  /** Whitespace before a token is skipped. */
  lemma {:induction false} TokensSkipSpaces(s: string, i: nat, j: nat)
    requires i <= j <= |s| && forall m | i <= m < j :: IsSpace(s[m])
    ensures TokensFrom(s, i) == TokensFrom(s, j)
    decreases j - i
  {
    if i < j {
      TokensSkipSpaces(s, i + 1, j);
    }
  }

  /** Whitespace, a token, then text that starts with whitespace or is empty: the token comes first. */
  lemma TokensAfterGap(g: string, t: string, r: string)
    requires AllSpace(g) && IsToken(t) && (r == [] || IsSpace(r[0]))
    ensures Tokens(g + t + r) == [t] + Tokens(r)
  {
    var s := g + t + r;
    assert s == g + (t + r);
    TokensSkipSpaces(s, 0, |g|);
    TokensShift(g, t + r, 0);
    RunEndUnique(t + r, 0, NonSpace, |t|);
    assert (t + r)[0..|t|] == t;
    TokensShift(t, r, 0);
  }

  /** Text made of whitespace only (possibly none). */
  predicate AllSpace(g: string) {
    forall m | 0 <= m < |g| :: IsSpace(g[m])
  }

  /** Each token after its own run of whitespace: the kind of text `split_whitespace` takes apart. */
  function Spaced(gaps: seq<string>, ts: seq<string>): string
    requires |gaps| == |ts|
  {
    if ts == [] then [] else gaps[0] + ts[0] + Spaced(gaps[1..], ts[1..])
  }

  /** Spacing a list that starts with one gap and one token. */
  lemma SpacedCons(g: string, t: string, gaps: seq<string>, ts: seq<string>)
    requires |gaps| == |ts|
    ensures Spaced([g] + gaps, [t] + ts) == g + t + Spaced(gaps, ts)
  {
    assert ([g] + gaps)[1..] == gaps && ([t] + ts)[1..] == ts;
  }

  /**
    Splitting undoes spacing: the partner of `Tokens`. Only the first gap
    may be empty; the others must separate the tokens.
   */
  lemma {:induction false} TokensOfSpaced(gaps: seq<string>, ts: seq<string>)
    requires |gaps| == |ts|
    requires forall k | 0 <= k < |ts| :: IsToken(ts[k])
    requires forall k | 0 <= k < |gaps| :: AllSpace(gaps[k])
    requires forall k | 1 <= k < |gaps| :: gaps[k] != []
    ensures Tokens(Spaced(gaps, ts)) == ts
  {
    if ts != [] {
      var r := Spaced(gaps[1..], ts[1..]);
      TokensOfSpaced(gaps[1..], ts[1..]);
      if ts[1..] != [] {
        assert r == gaps[1] + (ts[1] + Spaced(gaps[2..], ts[2..]));
        assert r[0] == gaps[1][0];
      }
      TokensAfterGap(gaps[0], ts[0], r);
    }
  }

  /** All the non-whitespace characters of `s[i..]`, in order. */
  function NonSpaceFrom(s: string, i: nat): string
    requires i <= |s|
    decreases |s| - i
  {
    if i == |s| then [] else (if IsSpace(s[i]) then [] else [s[i]]) + NonSpaceFrom(s, i + 1)
  }

  function Flatten(ts: seq<string>): string {
    if ts == [] then [] else ts[0] + Flatten(ts[1..])
  }

  lemma {:induction false} NonSpaceOfRun(s: string, i: nat, e: nat)
    requires i <= e <= |s|
    requires forall m | i <= m < e :: !IsSpace(s[m])
    ensures NonSpaceFrom(s, i) == s[i..e] + NonSpaceFrom(s, e)
    decreases e - i
  {
    if i < e {
      NonSpaceOfRun(s, i + 1, e);
      calc {
        NonSpaceFrom(s, i);
        [s[i]] + NonSpaceFrom(s, i + 1);
        [s[i]] + (s[i + 1..e] + NonSpaceFrom(s, e));
        ([s[i]] + s[i + 1..e]) + NonSpaceFrom(s, e);
        { assert s[i..e] == [s[i]] + s[i + 1..e]; }
        s[i..e] + NonSpaceFrom(s, e);
      }
    }
  }

  /** Tokenizing drops exactly the whitespace: no character is lost, reordered or invented. */
  lemma {:induction false} TokensKeepText(s: string, i: nat)
    requires i <= |s|
    ensures Flatten(TokensFrom(s, i)) == NonSpaceFrom(s, i)
    decreases |s| - i
  {
    if i < |s| {
      if IsSpace(s[i]) {
        TokensKeepText(s, i + 1);
      } else {
        var e := RunEnd(s, i, NonSpace);
        RunEndShape(s, i, NonSpace);
        TokensKeepText(s, e);
        NonSpaceOfRun(s, i, e);
        var ts := TokensFrom(s, i);
        assert ts == [s[i..e]] + TokensFrom(s, e);
        assert ts[1..] == TokensFrom(s, e);
      }
    }
  }
}
