/** The pieces of Go's standard library that the parted wrapper relies on, stated
    on Dafny strings: integer widths of a 64-bit target, substring search (what
    regexp.MatchString decides for a pattern made of literal alternatives),
    strings.TrimSpace, bufio.ScanLines, the %d verb of fmt, strconv.ParseUint
    and strconv.Atoi. */
module GoStrings {
  import opened Wrappers

  const MaxUint64: int := 0xFFFF_FFFF_FFFF_FFFF
  const UintModulus: int := 0x1_0000_0000_0000_0000
  const MaxInt64: int := 0x7FFF_FFFF_FFFF_FFFF
  const MinInt64: int := -0x8000_0000_0000_0000

  /** Go's `uint` on a 64-bit target. */
  type Uint = x: int | 0 <= x <= 0xFFFF_FFFF_FFFF_FFFF

  /** Go's `int` on a 64-bit target. */
  type Int64 = x: int | -0x8000_0000_0000_0000 <= x <= 0x7FFF_FFFF_FFFF_FFFF

  // ---------------------------------------------------------------- substrings

  /** `sub` occurs in `s` at position `i`. */
  predicate OccursAt(s: string, sub: string, i: int)
  {
    0 <= i && i + |sub| <= |s| && s[i..i + |sub|] == sub
  }

  /** strings.Contains; also regexp.MatchString for an unanchored pattern that
      is one literal word. */
  predicate Contains(s: string, sub: string)
    decreases |s|
  {
    sub <= s || (s != [] && Contains(s[1..], sub))
  }

  /** An occurrence at any position is found by Contains. */
  lemma {:induction false} OccursAtContains(s: string, sub: string, i: int)
    requires OccursAt(s, sub, i)
    ensures Contains(s, sub)
    decreases i
  {
    if i == 0 {
      assert sub == s[..|sub|];
    } else {
      assert s[1..][i - 1..i - 1 + |sub|] == s[i..i + |sub|];
      OccursAtContains(s[1..], sub, i - 1);
    }
  }

  /** Contains is exactly "occurs at some position". */
  lemma {:induction false} ContainsIff(s: string, sub: string)
    ensures Contains(s, sub) <==> exists i :: OccursAt(s, sub, i)
    decreases |s|
  {
    if sub <= s {
      assert OccursAt(s, sub, 0);
    } else if s != [] && Contains(s[1..], sub) {
      ContainsIff(s[1..], sub);
      var i :| OccursAt(s[1..], sub, i);
      assert s[i + 1..i + 1 + |sub|] == s[1..][i..i + |sub|];
      assert OccursAt(s, sub, i + 1);
    } else {
      forall i | OccursAt(s, sub, i) ensures false {
        OccursAtContains(s, sub, i);
      }
    }
  }

  /** An occurrence of a word gives an occurrence of each of its infixes, so
      containing "vfat" implies containing "fat". */
  lemma ContainsInfix(s: string, sub: string, k: nat)
    requires k <= |sub| && Contains(s, sub)
    ensures Contains(s, sub[k..])
  {
    ContainsIff(s, sub);
    var i :| OccursAt(s, sub, i);
    assert s[i + k..i + |sub|] == sub[k..];
    assert OccursAt(s, sub[k..], i + k);
    ContainsIff(s, sub[k..]);
  }

  // ---------------------------------------------------------------- white space

  /** unicode.IsSpace, the test strings.TrimSpace applies. */
  predicate IsSpace(c: char)
  {
    c == '\t' || c == '\n' || c == '\U{0B}' || c == '\U{0C}' || c == '\r' || c == ' '
    || c == '\U{85}' || c == '\U{A0}' || c == '\U{1680}' || ('\U{2000}' <= c <= '\U{200A}')
    || c == '\U{2028}' || c == '\U{2029}' || c == '\U{202F}' || c == '\U{205F}' || c == '\U{3000}'
  }

  predicate AllSpace(s: string)
  {
    forall i :: 0 <= i < |s| ==> IsSpace(s[i])
  }

  /** Neither starts nor ends with white space. */
  predicate Unpadded(s: string)
  {
    s == [] || (!IsSpace(s[0]) && !IsSpace(s[|s| - 1]))
  }

  /** strings.TrimLeft with unicode.IsSpace: a suffix that does not start
      with white space. */
  function TrimLeft(s: string): (r: string)
    ensures |r| <= |s| && r == s[|s| - |r|..]
    ensures r == [] || !IsSpace(r[0])
    ensures s == [] || !IsSpace(s[0]) ==> r == s
  {
    if s != [] && IsSpace(s[0]) then
      var r := TrimLeft(s[1..]);
      assert s[|s| - |r|..] == s[1..][|s| - 1 - |r|..];
      r
    else s
  }

  /** strings.TrimRight with unicode.IsSpace: a prefix that does not end
      with white space. */
  function TrimRight(s: string): (r: string)
    ensures |r| <= |s| && r == s[..|r|]
    ensures r == [] || !IsSpace(r[|r| - 1])
    ensures s == [] || !IsSpace(s[|s| - 1]) ==> r == s
  {
    if s != [] && IsSpace(s[|s| - 1]) then
      var r := TrimRight(s[..|s| - 1]);
      assert s[..|r|] == s[..|s| - 1][..|r|];
      r
    else s
  }

  /** Only white space is cut off on the left. */
  lemma {:induction false} TrimLeftSpace(s: string)
    ensures AllSpace(s[..|s| - |TrimLeft(s)|])
  {
    if s != [] && IsSpace(s[0]) {
      var r := TrimLeft(s[1..]);
      TrimLeftSpace(s[1..]);
      assert s[..|s| - |r|] == [s[0]] + s[1..][..|s| - 1 - |r|];
    }
  }

  /** Only white space is cut off on the right. */
  lemma {:induction false} TrimRightSpace(s: string)
    ensures AllSpace(s[|TrimRight(s)|..])
  {
    if s != [] && IsSpace(s[|s| - 1]) {
      var r := TrimRight(s[..|s| - 1]);
      TrimRightSpace(s[..|s| - 1]);
      assert s[|r|..] == s[..|s| - 1][|r|..] + [s[|s| - 1]];
    }
  }

  /** strings.TrimSpace: what is left after removing white space at both
      ends; it is unpadded, and an unpadded string is its own trim. */
  function TrimSpace(s: string): (r: string)
    ensures Unpadded(r)
    ensures Unpadded(s) ==> r == s
  {
    TrimRight(TrimLeft(s))
  }

  /** The trim is an infix of the string with only white space around it. */
  lemma TrimSpaceInfix(s: string)
    ensures var r := TrimSpace(s);
      exists i :: OccursAt(s, r, i) && AllSpace(s[..i]) && AllSpace(s[i + |r|..])
  {
    var left := TrimLeft(s);
    var r := TrimRight(left);
    var i := |s| - |left|;
    TrimLeftSpace(s);
    TrimRightSpace(left);
    assert s[i..i + |r|] == left[..|r|] == r;
    assert s[i + |r|..] == left[|r|..];
    assert OccursAt(s, r, i);
  }

  // ---------------------------------------------------------------- lines

  /** Index of the first '\n' in `s`, or |s| when there is none. */
  function LineEnd(s: string): (k: nat)
    ensures k <= |s|
    ensures forall i :: 0 <= i < k ==> s[i] != '\n'
    ensures k < |s| ==> s[k] == '\n'
  {
    if s == [] || s[0] == '\n' then 0 else 1 + LineEnd(s[1..])
  }

  /** bufio's dropCR: one trailing carriage return is not part of a line. */
  function DropCR(line: string): string
  {
    if line != [] && line[|line| - 1] == '\r' then line[..|line| - 1] else line
  }

  /** The tokens a bufio.Scanner with the default ScanLines split function
      yields: text up to each '\n' (without a trailing '\r'), and the rest when
      it is not empty. */
  function ScanLines(s: string): (lines: seq<string>)
    ensures forall k :: 0 <= k < |lines| ==> '\n' !in lines[k]
    decreases |s|
  {
    if s == [] then []
    else
      var k := LineEnd(s);
      if k == |s| then [DropCR(s)] else [DropCR(s[..k])] + ScanLines(s[k + 1..])
  }

  /** The text `lines` make when each but the last is followed by '\n'. */
  function JoinLines(lines: seq<string>): string
  {
    if lines == [] then []
    else if |lines| == 1 then lines[0]
    else lines[0] + "\n" + JoinLines(lines[1..])
  }

  /** Joined lines end with the last line's last character. */
  lemma {:induction false} JoinLinesLast(lines: seq<string>)
    requires lines != [] && lines[|lines| - 1] != []
    ensures var s := JoinLines(lines); var last := lines[|lines| - 1];
      s != [] && s[|s| - 1] == last[|last| - 1]
  {
    if |lines| > 1 {
      JoinLinesLast(lines[1..]);
    }
  }

  /** A line without '\n' ends where the text after it begins. */
  lemma {:induction false} LineEndAfter(line: string, rest: string)
    requires '\n' !in line
    ensures LineEnd(line + rest) == |line| + LineEnd(rest)
  {
    if line != [] {
      assert line[0] in line;
      assert (line + rest)[1..] == line[1..] + rest;
      LineEndAfter(line[1..], rest);
    } else {
      assert line + rest == rest;
    }
  }

  /** Scanning text that starts with a line and a '\n' yields that line, then
      the lines of the rest. */
  lemma ScanFirstLine(line: string, rest: string)
    requires '\n' !in line && DropCR(line) == line
    ensures ScanLines(line + "\n" + rest) == [line] + ScanLines(rest)
  {
    var s := line + "\n" + rest;
    assert s == line + ("\n" + rest);
    LineEndAfter(line, "\n" + rest);
    assert s[..|line|] == line;
    assert s[|line| + 1..] == rest;
  }

  /** Lines without '\n' or a trailing '\r', the last of them not empty, are
      what the scanner reads back from their joined text. */
  lemma {:induction false} ScanJoinedLines(lines: seq<string>)
    requires forall k :: 0 <= k < |lines| ==> '\n' !in lines[k] && DropCR(lines[k]) == lines[k]
    requires lines == [] || lines[|lines| - 1] != []
    ensures ScanLines(JoinLines(lines)) == lines
  {
    if |lines| == 1 {
      LineEndAfter(lines[0], []);
      assert lines[0] + [] == lines[0];
    } else if |lines| > 1 {
      ScanFirstLine(lines[0], JoinLines(lines[1..]));
      ScanJoinedLines(lines[1..]);
      assert lines == [lines[0]] + lines[1..];
    }
  }

  // ---------------------------------------------------------------- decimal numbers

  predicate IsDigit(c: char)
  {
    '0' <= c <= '9'
  }

  predicate AllDigits(s: string)
  {
    forall i :: 0 <= i < |s| ==> IsDigit(s[i])
  }

  function DigitChar(d: nat): (c: char)
    requires d < 10
    ensures IsDigit(c)
  {
    (48 + d) as char
  }

  function DigitValue(c: char): (d: nat)
    requires IsDigit(c)
    ensures d < 10 && DigitChar(d) == c
  {
    c as int - 48
  }

  /** The number a string of decimal digits denotes, most significant first. */
  function DigitsValue(s: string): nat
    requires AllDigits(s)
  {
    if s == [] then 0 else 10 * DigitsValue(s[..|s| - 1]) + DigitValue(s[|s| - 1])
  }

  /** fmt.Sprintf("%d", n) for n >= 0: a non-empty string of digits. */
  function NatToString(n: nat): (r: string)
    ensures r != [] && AllDigits(r)
  {
    if n < 10 then [DigitChar(n)] else NatToString(n / 10) + [DigitChar(n % 10)]
  }

  /** The numeral NatToString writes denotes n and has no leading zero. */
  lemma {:induction false} NatToStringValue(n: nat)
    ensures DigitsValue(NatToString(n)) == n
    ensures NatToString(n)[0] == '0' ==> n == 0 && NatToString(n) == "0"
  {
    if n >= 10 {
      var r := NatToString(n);
      NatToStringValue(n / 10);
      assert r[..|r| - 1] == NatToString(n / 10);
    }
  }

  /** fmt.Sprintf("%d", i) for any integer. */
  function IntToString(i: int): (r: string)
    ensures r != [] && (r[0] == '-' <==> i < 0)
  {
    if i < 0 then "-" + NatToString(-i) else NatToString(i)
  }

  // ---------------------------------------------------------------- strconv

  /** The two kinds of *strconv.NumError. */
  datatype NumError = ErrSyntax | ErrRange

  /** strconv.ParseUint(s, 10, 0) on a 64-bit target: an empty or non-digit
      string is a syntax error with value 0; a number past 64 bits is a range
      error with the largest uint. */
  function ParseUint(s: string): (Uint, Option<NumError>)
  {
    if s == [] || !AllDigits(s) then (0, Some(ErrSyntax))
    else if DigitsValue(s) > MaxUint64 then (MaxUint64, Some(ErrRange))
    else (DigitsValue(s), None)
  }

  /** strconv.Atoi on a 64-bit target: an optional sign, then decimal digits;
      a syntax error gives 0, an out-of-range number the nearest bound. */
  function Atoi(s: string): (Int64, Option<NumError>)
  {
    var signed := s != [] && (s[0] == '-' || s[0] == '+');
    var digits := if signed then s[1..] else s;
    if digits == [] || !AllDigits(digits) then (0, Some(ErrSyntax))
    else if signed && s[0] == '-' then
      if DigitsValue(digits) > -MinInt64 then (MinInt64, Some(ErrRange))
      else (-(DigitsValue(digits) as int), None)
    else if DigitsValue(digits) > MaxInt64 then (MaxInt64, Some(ErrRange))
    else (DigitsValue(digits), None)
  }

  /** ParseUint reads back what %d writes, for every uint. */
  lemma ParseUintOfNatToString(n: Uint)
    ensures ParseUint(NatToString(n)) == (n, None)
  {
    NatToStringValue(n);
  }

  /** Atoi reads back what %d writes, for every int. */
  lemma AtoiOfIntToString(i: Int64)
    ensures Atoi(IntToString(i)) == (i, None)
  {
    var s := IntToString(i);
    NatToStringValue(if i < 0 then -(i as int) else i);
    if i < 0 {
      assert s[1..] == NatToString(-(i as int));
      assert s[0] == '-';
      assert DigitsValue(s[1..]) == -(i as int);
    } else {
      assert s == NatToString(i);
    }
  }

  /** A digit string never makes ParseUint report a syntax error: only a
      number past 64 bits fails, and then with the largest uint. */
  lemma ParseUintOfDigits(s: string)
    requires s != [] && AllDigits(s)
    ensures ParseUint(s).1 != Some(ErrSyntax)
    ensures ParseUint(s).1 == None <==> DigitsValue(s) <= MaxUint64
    ensures ParseUint(s).0 == if DigitsValue(s) <= MaxUint64 then DigitsValue(s) else MaxUint64
  {
  }
}
