/** The string primitives of the JavaScript runtime that the calendar code
    relies on: white space, trimming, ASCII case mapping, literal search and
    global replacement, line splitting, integer rendering and `parseInt`. */
module JsText {
  import opened Wrappers

  // ---------------------------------------------------------------------
  // White space

  /** The LineTerminator code points of ECMAScript. */
  predicate IsLineTerminator(c: char) {
    c == '\n' || c == '\r' || c == '\U{2028}' || c == '\U{2029}'
  }

  /** WhiteSpace or LineTerminator: the set that `trim`, the regular
      expression class `\s` and `parseInt` all skip. */
  predicate IsSpace(c: char) {
    || IsLineTerminator(c)
    || c == '\t' || c == '\U{B}' || c == '\U{C}' || c == ' '
    || c == '\U{A0}' || c == '\U{1680}' || ('\U{2000}' <= c <= '\U{200A}')
    || c == '\U{202F}' || c == '\U{205F}' || c == '\U{3000}' || c == '\U{FEFF}'
  }

  function TrimStart(s: string): (r: string)
    ensures |r| <= |s| && r == s[|s| - |r|..]
    ensures r == [] || !IsSpace(r[0])
  {
    if s != [] && IsSpace(s[0]) then TrimStart(s[1..]) else s
  }

  function TrimEnd(s: string): (r: string)
    ensures |r| <= |s| && r == s[..|r|]
    ensures r == [] || !IsSpace(r[|r| - 1])
    ensures forall i :: |r| <= i < |s| ==> IsSpace(s[i])
  {
    if s != [] && IsSpace(s[|s| - 1]) then TrimEnd(s[..|s| - 1]) else s
  }

  /** String.prototype.trim. */
  function Trim(s: string): string {
    TrimEnd(TrimStart(s))
  }

  lemma TrimStartUnchanged(s: string)
    requires s != [] ==> !IsSpace(s[0])
    ensures TrimStart(s) == s
  {
  }

  /** A prefix of a suffix is a slice. */
  lemma SliceOfSuffix(s: string, i: nat, n: nat)
    requires i + n <= |s|
    ensures s[i..][..n] == s[i..i + n]
  {
  }

  lemma TrimUnchanged(s: string)
    requires s != [] ==> !IsSpace(s[0]) && !IsSpace(s[|s| - 1])
    ensures Trim(s) == s
  {
  }

  // ---------------------------------------------------------------------
  // ASCII case mapping (what regular expressions with the `i` flag and
  // ASCII patterns compare by)

  function UpperChar(c: char): char {
    if 'a' <= c <= 'z' then (c as int - 32) as char else c
  }

  function LowerChar(c: char): char {
    if 'A' <= c <= 'Z' then (c as int + 32) as char else c
  }

  function ToUpper(s: string): (r: string)
    ensures |r| == |s| && forall i :: 0 <= i < |s| ==> r[i] == UpperChar(s[i])
  {
    if s == [] then [] else [UpperChar(s[0])] + ToUpper(s[1..])
  }

  function ToLower(s: string): (r: string)
    ensures |r| == |s| && forall i :: 0 <= i < |s| ==> r[i] == LowerChar(s[i])
  {
    if s == [] then [] else [LowerChar(s[0])] + ToLower(s[1..])
  }

  /** Character equality of a regular expression, case-insensitive when `ci`. */
  predicate CharEq(a: char, b: char, ci: bool) {
    a == b || (ci && UpperChar(a) == UpperChar(b))
  }

  // ---------------------------------------------------------------------
  // Literal search

  /** `p` matches the beginning of `s`. */
  predicate PrefixMatch(s: string, p: string, ci: bool)
    ensures PrefixMatch(s, p, ci) ==> |p| <= |s|
  {
    p == [] || (s != [] && CharEq(s[0], p[0], ci) && PrefixMatch(s[1..], p[1..], ci))
  }

  lemma PrefixMatchSelf(p: string, rest: string, ci: bool)
    ensures PrefixMatch(p + rest, p, ci)
  {
    if p != [] {
      assert (p + rest)[1..] == p[1..] + rest;
      PrefixMatchSelf(p[1..], rest, ci);
    }
  }

  /** A case-sensitive match fixes every character it covers. */
  lemma PrefixMatchChars(s: string, p: string)
    requires PrefixMatch(s, p, false)
    ensures |p| <= |s| && s[..|p|] == p
  {
    if p != [] {
      PrefixMatchChars(s[1..], p[1..]);
    }
  }

  lemma {:induction false} PrefixMatchAt(s: string, p: string, ci: bool, i: nat)
    requires PrefixMatch(s, p, ci) && i < |p|
    ensures i < |s| && CharEq(s[i], p[i], ci)
  {
    if i > 0 {
      PrefixMatchAt(s[1..], p[1..], ci, i - 1);
    }
  }

  /** A pattern whose first character differs from the text's does not match. */
  lemma PrefixMismatch(s: string, p: string, ci: bool)
    requires p != [] && (s == [] || !CharEq(s[0], p[0], ci))
    ensures !PrefixMatch(s, p, ci)
  {
  }

  /** A pattern that differs from the text at a position it covers does not match. */
  lemma {:induction false} PrefixMismatchAt(s: string, p: string, ci: bool, i: nat)
    requires i < |p| && (i >= |s| || !CharEq(s[i], p[i], ci))
    ensures !PrefixMatch(s, p, ci)
  {
    if i > 0 && s != [] {
      PrefixMismatchAt(s[1..], p[1..], ci, i - 1);
    }
  }

  /** Whether `s` matches `p` at its start depends only on the first |p| characters. */
  lemma PrefixMatchExtend(s: string, t: string, p: string, ci: bool)
    requires |p| <= |s| && |p| <= |t| && s[..|p|] == t[..|p|]
    ensures PrefixMatch(s, p, ci) == PrefixMatch(t, p, ci)
  {
    if p != [] {
      assert s[0] == s[..|p|][0] && t[0] == t[..|p|][0];
      assert s[1..][..|p| - 1] == s[..|p|][1..];
      assert t[1..][..|p| - 1] == t[..|p|][1..];
      PrefixMatchExtend(s[1..], t[1..], p[1..], ci);
    }
  }

  /** String.prototype.includes. */
  predicate Contains(s: string, t: string)
  {
    PrefixMatch(s, t, false) || (s != [] && Contains(s[1..], t))
  }

  /** String.prototype.indexOf for one character. */
  function IndexOf(s: string, c: char): (r: Option<nat>)
    ensures r.Some? ==> r.value < |s| && s[r.value] == c && c !in s[..r.value]
    ensures r.None? ==> c !in s
  {
    if s == [] then None
    else if s[0] == c then Some(0)
    else match IndexOf(s[1..], c)
      case None => None
      case Some(i) => Some(i + 1)
  }

  /** `s.split(c)[0]`: the text before the first `c`, or all of `s`. */
  function BeforeFirst(s: string, c: char): (r: string)
    ensures |r| <= |s| && c !in r && r == s[..|r|]
    ensures |r| < |s| ==> s[|r|] == c
  {
    match IndexOf(s, c)
    case None => s
    case Some(i) => s[..i]
  }

  /** indexOf finds the first occurrence, wherever that is. */
  lemma IndexOfAt(s: string, c: char, i: nat)
    requires i < |s| && s[i] == c && c !in s[..i]
    ensures IndexOf(s, c) == Some(i)
  {
    assert s[i] in s;
  }

  /** Cutting at the first `c` keeps exactly the part before a separator
      that begins with `c`. */
  lemma BeforeFirstStops(a: string, b: string, c: char)
    requires c !in a && (b == [] || b[0] == c)
    ensures BeforeFirst(a + b, c) == a
  {
    assert (a + b)[..|a|] == a;
  }

  // ---------------------------------------------------------------------
  // Global replacement of a literal pattern: String.prototype.replace with a
  // regular expression carrying the `g` flag (and `i` when `ci`) whose
  // pattern is a fixed string. Matches are found left to right and do not
  // overlap; the replacement text is never searched again.

  function ReplaceAll(s: string, p: string, r: string, ci: bool): string
    requires p != []
    decreases |s|
  {
    if s == [] then []
    else if PrefixMatch(s, p, ci) then r + ReplaceAll(s[|p|..], p, r, ci)
    else [s[0]] + ReplaceAll(s[1..], p, r, ci)
  }

  lemma ReplaceAllTake(p: string, rest: string, r: string, ci: bool)
    requires p != []
    ensures ReplaceAll(p + rest, p, r, ci) == r + ReplaceAll(rest, p, r, ci)
  {
    PrefixMatchSelf(p, rest, ci);
    assert (p + rest)[|p|..] == rest;
  }

  lemma ReplaceAllSkip(c: char, rest: string, p: string, r: string, ci: bool)
    requires p != [] && !PrefixMatch([c] + rest, p, ci)
    ensures ReplaceAll([c] + rest, p, r, ci) == [c] + ReplaceAll(rest, p, r, ci)
  {
    assert ([c] + rest)[1..] == rest;
  }

  /** A string none of whose characters can start the pattern is left alone. */
  lemma ReplaceAllNoStart(s: string, p: string, r: string, ci: bool)
    requires p != [] && forall i :: 0 <= i < |s| ==> !CharEq(s[i], p[0], ci)
    ensures ReplaceAll(s, p, r, ci) == s
  {
    if s != [] {
      ReplaceAllNoStart(s[1..], p, r, ci);
    }
  }

  /** A chunk that does not match at its start and contains no further
      character that could start a match is copied unchanged, whatever follows. */
  lemma ReplaceAllSkipChunk(x: string, rest: string, p: string, r: string, ci: bool)
    requires p != [] && x != [] && !PrefixMatch(x + rest, p, ci)
    requires forall j :: 1 <= j < |x| ==> !CharEq(x[j], p[0], ci)
    ensures ReplaceAll(x + rest, p, r, ci) == x + ReplaceAll(rest, p, r, ci)
  {
    assert x + rest == [x[0]] + (x[1..] + rest);
    ReplaceAllSkip(x[0], x[1..] + rest, p, r, ci);
    if |x| > 1 {
      assert !PrefixMatch(x[1..] + rest, p, ci) by {
        assert !CharEq(x[1..][0], p[0], ci);
      }
      ReplaceAllSkipChunk(x[1..], rest, p, r, ci);
    }
  }

  // ---------------------------------------------------------------------
  // Lines: `text.split(/\r?\n/)`

  function SplitLines(s: string): (lines: seq<string>)
    ensures |lines| >= 1
    ensures forall k :: 0 <= k < |lines| ==> '\n' !in lines[k]
    decreases |s|
  {
    match IndexOf(s, '\n')
    case None => [s]
    case Some(i) =>
      var line := if i > 0 && s[i - 1] == '\r' then s[..i - 1] else s[..i];
      [line] + SplitLines(s[i + 1..])
  }

  /** The lines joined by line feeds: the inverse of splitting. */
  function JoinLines(lines: seq<string>): string
  {
    if lines == [] then []
    else if |lines| == 1 then lines[0]
    else lines[0] + "\n" + JoinLines(lines[1..])
  }

  /** Splitting a text without carriage returns loses nothing. */
  lemma {:induction false} JoinSplitLines(s: string)
    requires '\r' !in s
    ensures JoinLines(SplitLines(s)) == s
    decreases |s|
  {
    match IndexOf(s, '\n')
    case None =>
    case Some(i) =>
      assert '\r' !in s[i + 1..];
      JoinSplitLines(s[i + 1..]);
      var rest := SplitLines(s[i + 1..]);
      assert i > 0 ==> s[i - 1] != '\r';
      assert SplitLines(s) == [s[..i]] + rest;
      assert ([s[..i]] + rest)[1..] == rest;
      assert s == s[..i] + "\n" + s[i + 1..];
  }

  /** A line that splitting returns as it is: no line feed inside and no
      carriage return at its end. */
  predicate PlainLine(line: string) {
    '\n' !in line && (line == [] || line[|line| - 1] != '\r')
  }

  /** A plain line followed by a line feed splits off as the first line. */
  lemma SplitPlainHead(head: string, rest: string)
    requires PlainLine(head)
    ensures SplitLines(head + "\n" + rest) == [head] + SplitLines(rest)
  {
    var s := head + "\n" + rest;
    assert s[..|head|] == head;
    IndexOfAt(s, '\n', |head|);
    assert s[|head| + 1..] == rest;
    assert |head| > 0 ==> s[|head| - 1] == head[|head| - 1];
  }

  /** Joining plain lines and splitting the result gives them back. */
  lemma {:induction false} SplitJoinLines(lines: seq<string>)
    requires lines != [] && forall k :: 0 <= k < |lines| ==> PlainLine(lines[k])
    ensures SplitLines(JoinLines(lines)) == lines
    decreases |lines|
  {
    if |lines| > 1 {
      var rest := lines[1..];
      assert forall k :: 0 <= k < |rest| ==> PlainLine(rest[k]) by {
        forall k | 0 <= k < |rest| ensures PlainLine(rest[k]) {
          assert rest[k] == lines[k + 1];
        }
      }
      SplitJoinLines(rest);
      SplitPlainHead(lines[0], JoinLines(rest));
      assert lines == [lines[0]] + rest;
    }
  }

  /** A line-feed-free chunk whose last character cannot pair with what
      follows into a CR LF is copied unchanged by the CR LF replacement. */
  lemma {:induction false} CrLfSkipChunk(x: string, rest: string)
    requires '\n' !in x
    requires x != [] && x[|x| - 1] == '\r' ==> rest == [] || rest[0] != '\n'
    ensures ReplaceAll(x + rest, "\r\n", "\n", false) == x + ReplaceAll(rest, "\r\n", "\n", false)
    decreases |x|
  {
    if x != [] {
      var s := x + rest;
      if x[0] != '\r' {
        PrefixMismatchAt(s, "\r\n", false, 0);
      } else if |x| > 1 {
        assert s[1] == x[1];
        PrefixMismatchAt(s, "\r\n", false, 1);
      } else {
        assert s == [x[0]] + rest;
        PrefixMismatchAt(s, "\r\n", false, 1);
      }
      assert s == [x[0]] + (x[1..] + rest);
      ReplaceAllSkip(x[0], x[1..] + rest, "\r\n", "\n", false);
      CrLfSkipChunk(x[1..], rest);
      assert [x[0]] + (x[1..] + ReplaceAll(rest, "\r\n", "\n", false)) == x + ReplaceAll(rest, "\r\n", "\n", false);
    } else {
      assert x + rest == rest;
      assert x + ReplaceAll(rest, "\r\n", "\n", false) == ReplaceAll(rest, "\r\n", "\n", false);
    }
  }

  /** The first line of a text whose first line feed is at `i`: what
      precedes it, less a carriage return right before it. */
  function FirstLine(s: string, i: nat): string
    requires i < |s|
  {
    if i > 0 && s[i - 1] == '\r' then s[..i - 1] else s[..i]
  }

  lemma SplitLinesStep(s: string, i: nat)
    requires IndexOf(s, '\n') == Some(i)
    ensures JoinLines(SplitLines(s)) == FirstLine(s, i) + "\n" + JoinLines(SplitLines(s[i + 1..]))
  {
    var rest := SplitLines(s[i + 1..]);
    assert SplitLines(s) == [FirstLine(s, i)] + rest;
    assert ([FirstLine(s, i)] + rest)[1..] == rest;
  }

  /** A line that ends in CR LF: the pair becomes LF. */
  lemma CrLfBreak(x: string, t: string)
    requires '\n' !in x
    ensures ReplaceAll(x + ("\r\n" + t), "\r\n", "\n", false) == x + "\n" + ReplaceAll(t, "\r\n", "\n", false)
  {
    var r := ReplaceAll(t, "\r\n", "\n", false);
    CrLfSkipChunk(x, "\r\n" + t);
    ReplaceAllTake("\r\n", t, "\n", false);
    assert x + ("\n" + r) == x + "\n" + r;
  }

  /** A line that ends in a bare LF: the LF is kept. */
  lemma LfHead(t: string)
    ensures ReplaceAll("\n" + t, "\r\n", "\n", false) == "\n" + ReplaceAll(t, "\r\n", "\n", false)
  {
    PrefixMismatchAt("\n" + t, "\r\n", false, 0);
    assert "\n" + t == ['\n'] + t;
    ReplaceAllSkip('\n', t, "\r\n", "\n", false);
  }

  lemma LfBreak(x: string, t: string)
    requires '\n' !in x && (x == [] || x[|x| - 1] != '\r')
    ensures ReplaceAll(x + ("\n" + t), "\r\n", "\n", false) == x + "\n" + ReplaceAll(t, "\r\n", "\n", false)
  {
    var r := ReplaceAll(t, "\r\n", "\n", false);
    CrLfSkipChunk(x, "\n" + t);
    LfHead(t);
    assert x + ("\n" + r) == x + "\n" + r;
  }

  lemma SplitAt(s: string, i: nat)
    requires i < |s|
    ensures s == s[..i] + ([s[i]] + s[i + 1..])
  {
    assert s[i..] == [s[i]] + s[i + 1..];
    assert s == s[..i] + s[i..];
  }

  lemma CrStep(s: string, i: nat)
    requires 0 < i < |s| && s[i] == '\n' && s[i - 1] == '\r' && '\n' !in s[..i]
    ensures ReplaceAll(s, "\r\n", "\n", false) == s[..i - 1] + "\n" + ReplaceAll(s[i + 1..], "\r\n", "\n", false)
  {
    var x := s[..i - 1];
    var t := s[i + 1..];
    SplitAt(s, i - 1);
    SplitAt(s[i - 1..], 1);
    assert s[i - 1..][1] == '\n' && s[i - 1..][2..] == t;
    assert [s[i - 1]] + s[i - 1..][1..] == "\r\n" + t;
    assert '\n' !in x by { assert x == s[..i][..i - 1]; }
    CrLfBreak(x, t);
  }

  lemma LfStep(s: string, i: nat)
    requires i < |s| && s[i] == '\n' && !(i > 0 && s[i - 1] == '\r') && '\n' !in s[..i]
    ensures ReplaceAll(s, "\r\n", "\n", false) == s[..i] + "\n" + ReplaceAll(s[i + 1..], "\r\n", "\n", false)
  {
    SplitAt(s, i);
    assert [s[i]] == "\n";
    LfBreak(s[..i], s[i + 1..]);
  }

  lemma CrLfStep(s: string, i: nat)
    requires i < |s| && s[i] == '\n' && '\n' !in s[..i]
    ensures ReplaceAll(s, "\r\n", "\n", false)
            == FirstLine(s, i) + "\n" + ReplaceAll(s[i + 1..], "\r\n", "\n", false)
  {
    if i > 0 && s[i - 1] == '\r' {
      CrStep(s, i);
    } else {
      LfStep(s, i);
    }
  }

  /** Splitting drops exactly the carriage return before each line feed:
      joining the pieces gives the text with every CR LF turned into LF,
      and every other character, lone carriage returns included, kept. */
  lemma {:induction false} SplitLinesDropsCrBeforeLf(s: string)
    ensures JoinLines(SplitLines(s)) == ReplaceAll(s, "\r\n", "\n", false)
    decreases |s|
  {
    match IndexOf(s, '\n')
    case None =>
      CrLfSkipChunk(s, []);
      assert s + [] == s;
    case Some(i) =>
      SplitLinesDropsCrBeforeLf(s[i + 1..]);
      SplitLinesStep(s, i);
      CrLfStep(s, i);
  }

  // ---------------------------------------------------------------------
  // Numbers as text

  predicate IsDecDigit(c: char) {
    '0' <= c <= '9'
  }

  function DigitChar(d: nat): (c: char)
    requires d < 10
    ensures IsDecDigit(c)
  {
    ('0' as int + d) as char
  }

  /** Decimal notation of a natural number, without leading zeros. */
  function NatToString(n: nat): (r: string)
    ensures |r| >= 1 && forall k :: 0 <= k < |r| ==> IsDecDigit(r[k])
    ensures |r| > 1 ==> r[0] != '0'
    decreases n
  {
    if n < 10 then [DigitChar(n)] else NatToString(n / 10) + [DigitChar(n % 10)]
  }

  /** How a JavaScript template literal renders an integral number (for
      magnitudes below 10^21, where no exponent notation is used). */
  function IntToString(n: int): string {
    if n < 0 then "-" + NatToString(-n) else NatToString(n)
  }

  /** Exactly `width` decimal digits of `n`, zero-padded on the left. */
  function PadDigits(n: nat, width: nat): (r: string)
    ensures |r| == width && forall k :: 0 <= k < |r| ==> IsDecDigit(r[k])
  {
    if width == 0 then [] else PadDigits(n / 10, width - 1) + [DigitChar(n % 10)]
  }

  function Pow10(k: nat): (r: nat)
    ensures r >= 1
  {
    if k == 0 then 1 else 10 * Pow10(k - 1)
  }

  /** The value of a character as a digit of radix up to 36 (36 when it is none). */
  function DigitValue(c: char): nat {
    if '0' <= c <= '9' then c as int - '0' as int
    else if 'a' <= c <= 'z' then c as int - 'a' as int + 10
    else if 'A' <= c <= 'Z' then c as int - 'A' as int + 10
    else 36
  }

  /** The longest prefix of `s` made of digits of the given radix. */
  function DigitRun(s: string, radix: nat): (r: string)
    ensures |r| <= |s| && r == s[..|r|]
    ensures forall k :: 0 <= k < |r| ==> DigitValue(r[k]) < radix
    ensures |r| < |s| ==> DigitValue(s[|r|]) >= radix
  {
    if s != [] && DigitValue(s[0]) < radix then [s[0]] + DigitRun(s[1..], radix) else []
  }

  function DigitsValue(ds: string, radix: nat): int
  {
    if ds == [] then 0 else DigitsValue(ds[..|ds| - 1], radix) * radix + DigitValue(ds[|ds| - 1])
  }

  /** The digits after the sign: a `0x`/`0X` prefix selects radix 16, and the
      longest run of digits of the radix is read. */
  function ParseUnsigned(u: string): Option<int> {
    var hex := |u| >= 2 && u[0] == '0' && (u[1] == 'x' || u[1] == 'X');
    var radix := if hex then 16 else 10;
    var digits := DigitRun(if hex then u[2..] else u, radix);
    if digits == [] then None else Some(DigitsValue(digits, radix))
  }

  function Negate(v: Option<int>): Option<int> {
    match v
    case None => None
    case Some(x) => Some(-x)
  }

  /** The global parseInt with no radix argument: leading white space is
      skipped and one sign is read before the digits; `None` stands for NaN. */
  function ParseInt(s: string): Option<int> {
    if s == [] then None
    else if IsSpace(s[0]) then ParseInt(s[1..])
    else if s[0] == '-' then Negate(ParseUnsigned(s[1..]))
    else if s[0] == '+' then ParseUnsigned(s[1..])
    else ParseUnsigned(s)
  }

  /** Leading white space makes no difference to `parseInt`. */
  lemma {:induction false} ParseIntSkipsSpace(s: string)
    ensures ParseInt(s) == ParseInt(TrimStart(s))
  {
    if s != [] && IsSpace(s[0]) {
      ParseIntSkipsSpace(s[1..]);
    }
  }

  lemma ParseIntMinus(u: string)
    ensures ParseInt("-" + u) == Negate(ParseUnsigned(u))
  {
    assert ("-" + u)[1..] == u;
  }

  lemma DigitRunAll(ds: string, rest: string, radix: nat)
    requires forall k :: 0 <= k < |ds| ==> DigitValue(ds[k]) < radix
    requires rest == [] || DigitValue(rest[0]) >= radix
    ensures DigitRun(ds + rest, radix) == ds
  {
    if ds != [] {
      assert (ds + rest)[1..] == ds[1..] + rest;
      DigitRunAll(ds[1..], rest, radix);
    }
  }

  lemma DigitsValueSnoc(ds: string, c: char, radix: nat)
    ensures DigitsValue(ds + [c], radix) == DigitsValue(ds, radix) * radix + DigitValue(c)
  {
    assert (ds + [c])[..|ds|] == ds;
  }

  lemma {:induction false} NatToStringValue(n: nat)
    ensures DigitsValue(NatToString(n), 10) == n
    decreases n
  {
    if n >= 10 {
      NatToStringValue(n / 10);
      DigitsValueSnoc(NatToString(n / 10), DigitChar(n % 10), 10);
    }
  }

  lemma {:induction false} PadDigitsValue(n: nat, width: nat)
    requires n < Pow10(width)
    ensures DigitsValue(PadDigits(n, width), 10) == n
  {
    if width > 0 {
      PadDigitsValue(n / 10, width - 1);
      DigitsValueSnoc(PadDigits(n / 10, width - 1), DigitChar(n % 10), 10);
    }
  }

  lemma ParseUnsignedDecimal(ds: string, rest: string)
    requires ds != [] && forall k :: 0 <= k < |ds| ==> IsDecDigit(ds[k])
    requires rest == [] || (DigitValue(rest[0]) >= 10 && rest[0] != 'x' && rest[0] != 'X')
    ensures ParseUnsigned(ds + rest) == Some(DigitsValue(ds, 10))
  {
    var u := ds + rest;
    DigitRunAll(ds, rest, 10);
    assert !(|u| >= 2 && u[0] == '0' && (u[1] == 'x' || u[1] == 'X')) by {
      if |ds| > 1 {
        assert u[1] == ds[1];
      } else if |u| >= 2 {
        assert u[1] == rest[0];
      }
    }
  }

  lemma ParseUnsignedRendered(m: nat, rest: string)
    requires rest == [] || (DigitValue(rest[0]) >= 10 && rest[0] != 'x' && rest[0] != 'X')
    ensures ParseUnsigned(NatToString(m) + rest) == Some(m)
  {
    ParseUnsignedDecimal(NatToString(m), rest);
    NatToStringValue(m);
  }

  lemma ParseIntNoSign(s: string)
    requires s != [] && IsDecDigit(s[0])
    ensures ParseInt(s) == ParseUnsigned(s)
  {
  }

  lemma ParseIntNegated(s: string, u: string, m: int)
    requires s == "-" + u && ParseUnsigned(u) == Some(m)
    ensures ParseInt(s) == Some(-m)
  {
    ParseIntMinus(u);
  }

  lemma RenderNegative(n: int, rest: string)
    requires n < 0
    ensures IntToString(n) + rest == "-" + (NatToString(-n) + rest)
  {
  }

  lemma NegativeRenderedReads(n: int, rest: string)
    requires n < 0 && ParseUnsigned(NatToString(-n) + rest) == Some(-n)
    ensures ParseInt(IntToString(n) + rest) == Some(n)
  {
    RenderNegative(n, rest);
    ParseIntNegated(IntToString(n) + rest, NatToString(-n) + rest, -n);
  }

  lemma ParseIntRenderedNegative(n: int, rest: string)
    requires n < 0
    requires rest == [] || (DigitValue(rest[0]) >= 10 && rest[0] != 'x' && rest[0] != 'X')
    ensures ParseInt(IntToString(n) + rest) == Some(n)
  {
    ParseUnsignedRendered(-n, rest);
    NegativeRenderedReads(n, rest);
  }

  /** `parseInt` reads back the number a template literal rendered, even
      when text such as a unit follows it. */
  lemma ParseIntRendered(n: int, rest: string)
    requires rest == [] || (DigitValue(rest[0]) >= 10 && rest[0] != 'x' && rest[0] != 'X')
    ensures ParseInt(IntToString(n) + rest) == Some(n)
  {
    if n < 0 {
      ParseIntRenderedNegative(n, rest);
    } else {
      ParseUnsignedRendered(n, rest);
      ParseIntNoSign(NatToString(n) + rest);
    }
  }

  lemma ParseUnsignedPadded(n: nat, width: nat)
    requires 1 <= width && n < Pow10(width)
    ensures ParseUnsigned(PadDigits(n, width)) == Some(n)
  {
    var s := PadDigits(n, width);
    assert s == s + [];
    ParseUnsignedDecimal(s, []);
    PadDigitsValue(n, width);
  }

  /** `parseInt` reads a zero-padded field back as the number it encodes. */
  lemma ParseIntPadded(n: nat, width: nat)
    requires 1 <= width && n < Pow10(width)
    ensures ParseInt(PadDigits(n, width)) == Some(n)
  {
    ParseUnsignedPadded(n, width);
    ParseIntNoSign(PadDigits(n, width));
  }
}
