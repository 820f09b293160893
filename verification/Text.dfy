/**
  The text routines both sides of the rules file rely on: the decimal printer
  behind `fprintf("%d")`, Go's `strconv.ParseInt`, `strings.TrimSpace` and the
  line splitting of `bufio.Scanner`.
 */
module Text {

  datatype Option<+T> = None | Some(value: T)

  predicate StartsWith(s: string, prefix: string) {
    prefix <= s
  }

  predicate EndsWith(s: string, suffix: string) {
    |suffix| <= |s| && s[|s| - |suffix|..] == suffix
  }

  // ----- decimal numbers -----

  predicate IsDigit(c: char) {
    '0' <= c <= '9'
  }

  function DigitChar(d: nat): char
    requires d < 10
  {
    '0' + d as char
  }

  function DigitValue(c: char): nat
    requires IsDigit(c)
  {
    (c - '0') as nat
  }

  /** The decimal digits of `n`, without leading zeros. */
  function Decimal(n: nat): (s: string)
    ensures |s| > 0 && forall i :: 0 <= i < |s| ==> IsDigit(s[i])
    ensures n > 0 ==> s[0] != '0'
  {
    if n < 10 then [DigitChar(n)] else Decimal(n / 10) + [DigitChar(n % 10)]
  }

  /** `fprintf("%d", n)`. */
  function PrintInt(n: int): string {
    if n < 0 then "-" + Decimal(-n) else Decimal(n)
  }

  /** What a C `int` holds. */
  type CInt = n: int | INT32_MIN <= n <= INT32_MAX

  function ParseDigits(s: string): Option<nat>
    decreases |s|
  {
    if |s| == 0 then None
    else
      var last := s[|s| - 1];
      if !IsDigit(last) then None
      else if |s| == 1 then Some(DigitValue(last))
      else match ParseDigits(s[..|s| - 1])
        case None => None
        case Some(v) => Some(10 * v + DigitValue(last))
  }

  const INT64_MIN: int := -0x8000_0000_0000_0000
  const INT64_MAX: int := 0x7fff_ffff_ffff_ffff
  const INT32_MIN: int := -0x8000_0000
  const INT32_MAX: int := 0x7fff_ffff

  /** `strconv.ParseInt(s, 10, 64)`: an optional sign, then digits, then a range check. */
  function ParseInt(s: string): Option<int> {
    if s == "" then None
    else
      var negative := s[0] == '-';
      var magnitude := ParseDigits(if s[0] == '-' || s[0] == '+' then s[1..] else s);
      if magnitude.None? then None
      else
        var m: int := magnitude.value;
        var n := if negative then -m else m;
        if INT64_MIN <= n <= INT64_MAX then Some(n) else None
  }

  lemma {:induction false} DecimalParsesBack(n: nat)
    ensures ParseDigits(Decimal(n)) == Some(n)
  {
    if n >= 10 {
      DecimalParsesBack(n / 10);
      var s := Decimal(n);
      assert s[..|s| - 1] == Decimal(n / 10);
    }
  }

  /** Every number a C `int` can hold survives the printer and the parser. */
  lemma PrintedIntParsesBack(n: CInt)
    ensures ParseInt(PrintInt(n)) == Some(n)
  {
    var m: int := n;
    var digits := Decimal(if m < 0 then -m else m);
    DecimalParsesBack(if m < 0 then -m else m);
    assert IsDigit(digits[0]);
    if n < 0 {
      assert ("-" + digits)[1..] == digits;
    }
  }

  function Zeros(k: nat): string {
    seq(k, i => '0')
  }

  lemma {:induction false} LeadingZeros(k: nat, digits: string)
    requires digits != ""
    ensures ParseDigits(Zeros(k) + digits) == ParseDigits(digits)
    decreases k, |digits|
  {
    var s := Zeros(k) + digits;
    if |digits| > 1 {
      assert s[..|s| - 1] == Zeros(k) + digits[..|digits| - 1];
      LeadingZeros(k, digits[..|digits| - 1]);
    } else if k > 0 {
      assert s[..|s| - 1] == Zeros(k - 1) + "0";
      LeadingZeros(k - 1, "0");
    } else {
      assert s == digits;
    }
  }

  lemma {:induction false} OnlyDigitsParse(s: string)
    ensures ParseDigits(s).Some? <==> s != "" && forall c <- s :: IsDigit(c)
    decreases |s|
  {
    if |s| > 1 {
      OnlyDigitsParse(s[..|s| - 1]);
      assert s == s[..|s| - 1] + [s[|s| - 1]];
    }
  }

  /** The value of a number with a sign, if it has no more than 64 bits. */
  function Signed(negative: bool, m: int): Option<int> {
    var value := if negative then -m else m;
    if -0x8000_0000_0000_0000 <= value < 0x8000_0000_0000_0000 then Some(value) else None
  }

  lemma SignThenDigits(sign: string, digits: string)
    requires sign == "+" || sign == "-"
    requires ParseDigits(digits).Some?
    ensures ParseInt(sign + digits) == Signed(sign == "-", ParseDigits(digits).value)
  {
    var s := sign + digits;
    assert s[0] == sign[0] && s[1..] == digits;
  }

  lemma DigitsAlone(digits: string)
    requires digits != "" && IsDigit(digits[0]) && ParseDigits(digits).Some?
    ensures ParseInt(digits) == Signed(false, ParseDigits(digits).value)
  {
  }

  lemma PaddedDecimal(k: nat, n: nat) returns (digits: string)
    ensures digits == Zeros(k) + Decimal(n) && digits != "" && IsDigit(digits[0]) && ParseDigits(digits) == Some(n)
  {
    digits := Zeros(k) + Decimal(n);
    LeadingZeros(k, Decimal(n));
    DecimalParsesBack(n);
  }

  /** Leading zeros and one sign are read over, and a number of more than 64 bits is none. */
  lemma SignedDecimalParses(k: nat, n: nat) returns (digits: string)
    ensures digits == Zeros(k) + Decimal(n)
    ensures ParseInt("-" + digits) == Signed(true, n)
    ensures ParseInt("+" + digits) == ParseInt(digits) == Signed(false, n)
  {
    digits := PaddedDecimal(k, n);
    SignThenDigits("-", digits);
    SignThenDigits("+", digits);
    DigitsAlone(digits);
  }

  /** Nothing but digits after at most one sign is a number. */
  lemma OnlySignedDigitsParse(s: string)
    ensures ParseInt(s).Some? ==>
      var digits := if s[0] in "+-" then s[1..] else s;
      digits != "" && forall c <- digits :: IsDigit(c)
  {
    if s != "" {
      OnlyDigitsParse(if s[0] in "+-" then s[1..] else s);
    }
  }

  /** Two numbers print alike only when they are equal. */
  lemma DecimalIsInjective(m: nat, n: nat)
    requires Decimal(m) == Decimal(n)
    ensures m == n
  {
    DecimalParsesBack(m);
    DecimalParsesBack(n);
  }

  // ----- white space -----

  /** The ASCII characters `strings.TrimSpace` strips. */
  predicate IsSpace(c: char) {
    c == ' ' || c == '\t' || c == '\n' || c == '\r' || c == 11 as char || c == 12 as char
  }

  function TrimLeft(s: string): string {
    if |s| > 0 && IsSpace(s[0]) then TrimLeft(s[1..]) else s
  }

  function TrimRight(s: string): string {
    if |s| > 0 && IsSpace(s[|s| - 1]) then TrimRight(s[..|s| - 1]) else s
  }

  function TrimSpace(s: string): string {
    TrimRight(TrimLeft(s))
  }

  /** No white space at either end. */
  predicate Trimmed(s: string) {
    |s| > 0 ==> !IsSpace(s[0]) && !IsSpace(s[|s| - 1])
  }

  lemma TrimLeftStarts(s: string)
    ensures |TrimLeft(s)| <= |s|
    ensures |TrimLeft(s)| > 0 ==> !IsSpace(TrimLeft(s)[0])
    ensures |TrimLeft(s)| == |s| ==> TrimLeft(s) == s
  {
  }

  lemma {:induction false} TrimRightEnds(s: string)
    ensures TrimRight(s) <= s
    ensures |TrimRight(s)| > 0 ==> !IsSpace(TrimRight(s)[|TrimRight(s)| - 1])
  {
    if |s| > 0 && IsSpace(s[|s| - 1]) {
      TrimRightEnds(s[..|s| - 1]);
    }
  }

  /** A string is a fixed point of `TrimSpace` exactly when no white space surrounds it. */
  lemma TrimSpaceFixesTrimmed(s: string)
    ensures TrimSpace(s) == s <==> Trimmed(s)
  {
    TrimLeftStarts(s);
    TrimRightEnds(TrimLeft(s));
  }

  /** What is trimmed off is space, tab, newline, vertical tab, form feed or carriage return, and all of it goes. */
  lemma TrimSpaceStrips(s: string) returns (left: string, right: string)
    ensures s == left + TrimSpace(s) + right && Trimmed(TrimSpace(s))
    ensures AllSpace(left) && AllSpace(right)
  {
    left := StripLeft(s);
    right := StripRight(TrimLeft(s));
    StrippedIsTrimmed(s);
  }

  predicate AllSpace(s: string) {
    forall c <- s :: c == ' ' || 9 <= c as int <= 13
  }

  lemma StrippedIsTrimmed(s: string)
    ensures Trimmed(TrimSpace(s))
  {
    TrimLeftStarts(s);
    TrimRightEnds(TrimLeft(s));
  }

  lemma {:induction false} StripLeft(s: string) returns (left: string)
    ensures s == left + TrimLeft(s) && AllSpace(left)
  {
    left := [];
    if |s| > 0 && IsSpace(s[0]) {
      left := StripLeft(s[1..]);
      left := [s[0]] + left;
    }
  }

  lemma {:induction false} StripRight(s: string) returns (right: string)
    ensures s == TrimRight(s) + right && AllSpace(right)
  {
    right := [];
    if |s| > 0 && IsSpace(s[|s| - 1]) {
      right := StripRight(s[..|s| - 1]);
      right := right + [s[|s| - 1]];
    }
  }

  // ----- lines -----

  /** The position of the first newline, or the length when there is none. */
  function NewlineAt(s: string): (k: nat)
    ensures k <= |s|
    ensures k < |s| ==> s[k] == '\n'
    ensures forall i :: 0 <= i < k ==> s[i] != '\n'
  {
    if |s| == 0 || s[0] == '\n' then 0 else 1 + NewlineAt(s[1..])
  }

  function DropCarriageReturn(s: string): string {
    if |s| > 0 && s[|s| - 1] == '\r' then s[..|s| - 1] else s
  }

  /** The tokens `bufio.ScanLines` delivers for a whole file. */
  function Lines(text: string): seq<string>
    decreases |text|
  {
    if |text| == 0 then []
    else
      var k := NewlineAt(text);
      if k == |text| then [DropCarriageReturn(text)]
      else [DropCarriageReturn(text[..k])] + Lines(text[k + 1..])
  }

  function Newlines(s: string): nat {
    if |s| == 0 then 0 else (if s[0] == '\n' then 1 else 0) + Newlines(s[1..])
  }

  lemma {:induction false} NewlinesConcat(a: string, b: string)
    ensures Newlines(a + b) == Newlines(a) + Newlines(b)
  {
    if |a| == 0 {
      assert a + b == b;
    } else {
      assert (a + b)[1..] == a[1..] + b;
      NewlinesConcat(a[1..], b);
    }
  }

  lemma {:induction false} NoNewlines(s: string)
    ensures Newlines(s) == 0 <==> '\n' !in s
  {
    if |s| > 0 {
      NoNewlines(s[1..]);
      assert s == [s[0]] + s[1..];
    }
  }

  lemma FirstNewlineCounts(text: string, k: nat)
    requires k < |text| && text[k] == '\n'
    requires forall i :: 0 <= i < k ==> text[i] != '\n'
    ensures Newlines(text) == 1 + Newlines(text[k + 1..])
  {
    var head, tail := text[..k], text[k..];
    assert text == head + tail;
    NewlinesConcat(head, tail);
    NoNewlines(head);
    assert tail[1..] == text[k + 1..];
  }

  lemma FirstLine(text: string)
    requires NewlineAt(text) < |text|
    ensures |Lines(text)| == 1 + |Lines(text[NewlineAt(text) + 1..])|
  {
  }

  /** Text that ends in a newline has one line per newline. */
  lemma {:induction false} LineCount(text: string)
    requires |text| > 0 ==> text[|text| - 1] == '\n'
    ensures |Lines(text)| == Newlines(text)
    decreases |text|
  {
    if |text| > 0 {
      var k := NewlineAt(text);
      assert k < |text|;
      var rest := text[k + 1..];
      FirstNewlineCounts(text, k);
      FirstLine(text);
      if |rest| > 0 {
        assert rest[|rest| - 1] == text[|text| - 1];
      }
      LineCount(rest);
    }
  }

  /** Reading a line that was printed with a newline after it. */
  lemma {:induction false} LinesOfPrintedLine(line: string, rest: string)
    requires '\n' !in line
    ensures Lines(line + "\n" + rest) == [DropCarriageReturn(line)] + Lines(rest)
  {
    var text := line + "\n" + rest;
    var k := NewlineAt(text);
    assert text[|line|] == '\n';
    assert k >= |line| by {
      assert forall i :: 0 <= i < |line| ==> text[i] == line[i];
    }
    assert text[..k] == line;
    assert text[k + 1..] == rest;
  }

  /** The last line needs no newline, an empty one at the end is no line, and one carriage return goes. */
  lemma LastLine(line: string)
    requires '\n' !in line
    ensures Lines(line) == if line == "" then [] else [DropCarriageReturn(line)]
    ensures DropCarriageReturn(line + "\r") == line
    ensures !EndsWith(line, "\r") ==> DropCarriageReturn(line) == line
  {
    if line != "" {
      assert line[|line| - 1..] == [line[|line| - 1]];
    }
  }

  /** Trimming forgets the carriage return the scanner drops. */
  lemma TrimAfterCarriageReturn(s: string)
    ensures TrimSpace(DropCarriageReturn(s)) == TrimSpace(s)
    decreases |s|
  {
    if |s| > 0 && s[|s| - 1] == '\r' {
      var t := s[..|s| - 1];
      TrimLeftSnoc(t, '\r');
      assert s == t + ['\r'];
      if TrimLeft(t) != "" {
        assert TrimRight(TrimLeft(t) + ['\r']) == TrimRight((TrimLeft(t) + ['\r'])[..|TrimLeft(t)|]);
        assert (TrimLeft(t) + ['\r'])[..|TrimLeft(t)|] == TrimLeft(t);
      }
    }
  }

  lemma {:induction false} TrimLeftSnoc(t: string, c: char)
    requires IsSpace(c)
    ensures TrimLeft(t + [c]) == if TrimLeft(t) == "" then "" else TrimLeft(t) + [c]
  {
    if |t| == 0 {
      assert t + [c] == [c];
      assert TrimLeft([c]) == TrimLeft([c][1..]);
    } else if IsSpace(t[0]) {
      assert (t + [c])[1..] == t[1..] + [c];
      TrimLeftSnoc(t[1..], c);
    }
  }
}
