/** What `add2` answers to one line (15-ipc/6-copro/add2.c): sscanf of two integers, their sum printed. */
module Add2 {

  datatype Scan = NoMatch | Match(value: int, end: nat)

  predicate IsSpace(c: char) {
    c == ' ' || c == '\t' || c == '\n' || c == '\U{000b}' || c == '\U{000c}' || c == '\r'
  }

  predicate IsDigit(c: char) {
    '0' <= c <= '9'
  }

  function SkipSpaces(s: string, i: nat): (j: nat)
    requires i <= |s|
    ensures i <= j <= |s|
    decreases |s| - i
  {
    if i < |s| && IsSpace(s[i]) then SkipSpaces(s, i + 1) else i
  }

  function SkipDigits(s: string, i: nat): (j: nat)
    requires i <= |s|
    ensures i <= j <= |s|
    decreases |s| - i
  {
    if i < |s| && IsDigit(s[i]) then SkipDigits(s, i + 1) else i
  }

  function Value(digits: string): int {
    if digits == [] then 0
    else Value(digits[..|digits| - 1]) * 10 + (digits[|digits| - 1] as int - '0' as int)
  }

  /** One %d of sscanf, from position `i`. */
  function ScanInt(s: string, i: nat): (r: Scan)
    requires i <= |s|
    ensures r.Match? ==> r.end <= |s|
  {
    var j := SkipSpaces(s, i);
    var signed := j < |s| && (s[j] == '-' || s[j] == '+');
    var k := if signed then j + 1 else j;
    var e := SkipDigits(s, k);
    if e == k then NoMatch
    else Match(if signed && s[j] == '-' then -Value(s[k..e]) else Value(s[k..e]), e)
  }

  const TWO_31: int := 0x8000_0000
  const TWO_32: int := 0x1_0000_0000

  /** A 32-bit int: out-of-range values wrap around. */
  function Wrap(x: int): (r: int)
    ensures -TWO_31 <= r < TWO_31
    ensures -TWO_31 <= x < TWO_31 ==> r == x
  {
    (x + TWO_31) % TWO_32 - TWO_31
  }

  function Digit(d: nat): char
    requires d < 10
  {
    ('0' as int + d) as char
  }

  function Digits(n: nat): (s: string)
    ensures |s| > 0
  {
    if n < 10 then [Digit(n)] else Digits(n / 10) + [Digit(n % 10)]
  }

  /** %d of sprintf. */
  function Decimal(n: int): string {
    if n < 0 then "-" + Digits(-n) else Digits(n)
  }

  /** The line that comes back for the request `line`. */
  function Reply(line: string): string {
    match ScanInt(line, 0)
    case NoMatch => "invalid args\n"
    case Match(a, i) =>
      match ScanInt(line, i)
      case NoMatch => "invalid args\n"
      case Match(b, _) => Decimal(Wrap(Wrap(a) + Wrap(b))) + "\n"
  }

  lemma {:induction false} AllDigits(n: nat)
    ensures forall k :: 0 <= k < |Digits(n)| ==> IsDigit(Digits(n)[k])
  {
    if n >= 10 {
      AllDigits(n / 10);
    }
  }

  function Power10(k: nat): nat {
    if k == 0 then 1 else 10 * Power10(k - 1)
  }

  lemma {:induction false} DigitsLength(n: nat, k: nat)
    requires k > 0 && n < Power10(k)
    ensures |Digits(n)| <= k
  {
    if n >= 10 {
      assert k > 1;
      DigitsLength(n / 10, k - 1);
    }
  }

  /** Every reply is short and has no NUL in it, so it survives the trip through both buffers. */
  lemma ReplyIsShort(line: string)
    ensures 2 <= |Reply(line)| <= 13
    ensures '\0' !in Reply(line)
  {
    hide ScanInt, Wrap;
    var m := ScanInt(line, 0);
    if m.Match? && ScanInt(line, m.end).Match? {
      DecimalIsShort(Wrap(Wrap(m.value) + Wrap(ScanInt(line, m.end).value)));
    }
  }

  lemma DecimalIsShort(n: int)
    requires -TWO_31 <= n < TWO_31
    ensures 1 <= |Decimal(n)| <= 11 && '\0' !in Decimal(n)
  {
    hide Digits;
    assert Power10(10) == 10_000_000_000 by {
      assert Power10(5) == 100_000;
      assert Power10(10) == 10 * (10 * (10 * (10 * (10 * Power10(5)))));
    }
    DigitsLength(if n < 0 then -n else n, 10);
    AllDigits(if n < 0 then -n else n);
  }

  lemma {:induction false} ValueOfDigits(n: nat)
    ensures Value(Digits(n)) == n
  {
    if n >= 10 {
      ValueOfDigits(n / 10);
      var s := Digits(n);
      assert s[..|s| - 1] == Digits(n / 10);
    } else {
      assert Digits(n)[..0] == [];
    }
  }

  lemma {:induction false} SkipsAllDigits(s: string, i: nat, e: nat)
    requires i <= e <= |s| && (forall k :: i <= k < e ==> IsDigit(s[k])) && (e < |s| ==> !IsDigit(s[e]))
    ensures SkipDigits(s, i) == e
    decreases e - i
  {
    if i < e {
      SkipsAllDigits(s, i + 1, e);
    }
  }

  /** sscanf reads back what sprintf wrote, after blanks, up to a nondigit. */
  lemma ScanDecimal(s: string, i: nat, n: int, e: nat)
    requires i <= |s| && SkipSpaces(s, i) <= e <= |s|
    requires s[SkipSpaces(s, i)..e] == Decimal(n) && (e < |s| ==> !IsDigit(s[e]))
    ensures ScanInt(s, i) == Match(n, e)
  {
    hide Value, SkipSpaces, SkipDigits, Digits;
    AllDigits(if n < 0 then -n else n);
    var j := SkipSpaces(s, i);
    var digits := if n < 0 then Digits(-n) else Digits(n);
    var k := if n < 0 then j + 1 else j;
    var text := s[j..e];
    assert n < 0 ==> text[0] == '-';
    assert n >= 0 ==> IsDigit(text[0]);
    assert s[j] == text[0];
    assert s[k..e] == digits;
    assert forall m :: k <= m < e ==> s[m] == digits[m - k];
    SkipsAllDigits(s, k, e);
    ValueOfDigits(if n < 0 then -n else n);
  }

  /** `add2` adds: for ints whose sum is an int, the reply to their decimals is the decimal of the sum. */
  lemma ReplyAdds(a: int, b: int)
    requires -TWO_31 <= a < TWO_31 && -TWO_31 <= b < TWO_31 && -TWO_31 <= a + b < TWO_31
    ensures Reply(Decimal(a) + " " + Decimal(b) + "\n") == Decimal(a + b) + "\n"
  {
    hide ScanInt, Digits, Wrap;
    var left, right := Decimal(a), Decimal(b);
    var line := left + " " + right + "\n";
    var i := |left|;
    var e := i + 1 + |right|;
    NoSpaceBefore(a);
    NoSpaceBefore(b);
    assert line[0] == left[0] && line[i] == ' ' && line[i + 1] == right[0] && line[e] == '\n';
    assert SkipSpaces(line, 0) == 0;
    assert SkipSpaces(line, i + 1) == i + 1;
    assert SkipSpaces(line, i) == i + 1;
    assert line[0..i] == left;
    assert line[i + 1..e] == right;
    ScanDecimal(line, 0, a, i);
    ScanDecimal(line, i, b, e);
  }

  lemma NoSpaceBefore(n: int)
    ensures |Decimal(n)| > 0 && !IsSpace(Decimal(n)[0])
  {
    hide Digits;
    AllDigits(if n < 0 then -n else n);
    assert IsDigit(Digits(if n < 0 then -n else n)[0]);
  }

  // When a line is answered with a sum

  /** A line cut into two integers as sscanf reads them, and what is behind. */
  datatype Cut = Cut(blanks1: string, sign1: string, digits1: string,
                     blanks2: string, sign2: string, digits2: string, rest: string)

  predicate IsBlanks(s: string) {
    forall k :: 0 <= k < |s| ==> s[k] in {' ', '\t', '\n', '\U{000b}', '\U{000c}', '\r'}
  }

  predicate IsSign(s: string) {
    s == "" || s == "+" || s == "-"
  }

  predicate IsNumeral(s: string) {
    s != "" && forall k :: 0 <= k < |s| ==> '0' <= s[k] <= '9'
  }

  /** Both numerals are as long as possible: something that is no digit comes behind each. */
  predicate Cuts(line: string, c: Cut) {
    && line == c.blanks1 + c.sign1 + c.digits1 + c.blanks2 + c.sign2 + c.digits2 + c.rest
    && IsBlanks(c.blanks1) && IsSign(c.sign1) && IsNumeral(c.digits1)
    && IsBlanks(c.blanks2) && IsSign(c.sign2) && IsNumeral(c.digits2)
    && c.blanks2 + c.sign2 != "" && (c.rest == "" || !('0' <= c.rest[0] <= '9'))
  }

  function Number(sign: string, digits: string): int {
    if sign == "-" then -Value(digits) else Value(digits)
  }

  /** Each digit counts for itself, times ten for every place behind it. */
  lemma {:induction false} ValueByPlace(i: nat, digits: string)
    requires i < 10
    ensures Value("") == 0
    ensures Value(["0123456789"[i]] + digits) == i * Power10(|digits|) + Value(digits)
  {
    var all := ["0123456789"[i]] + digits;
    if digits == "" {
      assert all[..0] == "";
    } else {
      var n := |digits| - 1;
      ValueByPlace(i, digits[..n]);
      assert all[..n + 1] == ["0123456789"[i]] + digits[..n];
      assert i * Power10(n + 1) == 10 * (i * Power10(n));
    }
  }

  /** Decimals are numerals without leading zeros, behind a minus sign if negative, and have the right value. */
  lemma DecimalSpells(n: int)
    ensures n < 0 ==> Decimal(n)[0] == '-'
    ensures var digits := if n < 0 then Decimal(n)[1..] else Decimal(n);
            && IsNumeral(digits) && (digits == "0" || digits[0] != '0')
            && Value(digits) == if n < 0 then -n else n
  {
    var m := if n < 0 then -n else n;
    AllDigits(m);
    ValueOfDigits(m);
    NoLeadingZero(m);
  }

  lemma {:induction false} NoLeadingZero(n: nat)
    ensures Digits(n) == "0" || Digits(n)[0] != '0'
    ensures n > 0 ==> Digits(n)[0] != '0'
  {
    if n >= 10 {
      NoLeadingZero(n / 10);
    }
  }

  lemma {:induction false} SkipsAllSpaces(s: string, i: nat, j: nat)
    requires i <= j <= |s| && (forall k :: i <= k < j ==> IsSpace(s[k])) && (j < |s| ==> !IsSpace(s[j]))
    ensures SkipSpaces(s, i) == j
    decreases j - i
  {
    if i < j {
      SkipsAllSpaces(s, i + 1, j);
    }
  }

  lemma {:induction false} SpacesSkipped(s: string, i: nat)
    requires i <= |s|
    ensures forall k :: i <= k < SkipSpaces(s, i) ==> IsSpace(s[k])
    decreases |s| - i
  {
    if i < |s| && IsSpace(s[i]) {
      SpacesSkipped(s, i + 1);
    }
  }

  lemma {:induction false} DigitsSkipped(s: string, i: nat)
    requires i <= |s|
    ensures forall k :: i <= k < SkipDigits(s, i) ==> IsDigit(s[k])
    ensures SkipDigits(s, i) < |s| ==> !IsDigit(s[SkipDigits(s, i)])
    decreases |s| - i
  {
    if i < |s| && IsDigit(s[i]) {
      DigitsSkipped(s, i + 1);
    }
  }

  /** Text of the form blanks, sign, numeral, up to a nondigit, is scanned as the number it spells. */
  lemma ScanNumeral(s: string, i: nat, blanks: string, sign: string, digits: string)
    requires i <= |s| && blanks + sign + digits <= s[i..]
    requires IsBlanks(blanks) && IsSign(sign) && IsNumeral(digits)
    requires var e := i + |blanks + sign + digits|; e < |s| ==> !('0' <= s[e] <= '9')
    ensures ScanInt(s, i) == Match(Number(sign, digits), i + |blanks + sign + digits|)
  {
    hide Value;
    var text := blanks + sign + digits;
    var j := i + |blanks|;
    var k := j + |sign|;
    var e := k + |digits|;
    assert forall m :: 0 <= m < |text| ==> s[i + m] == text[m];
    assert s[i..j] == blanks && s[j..k] == sign && s[k..e] == digits;
    assert forall m :: i <= m < j ==> s[m] == blanks[m - i];
    assert forall m :: k <= m < e ==> s[m] == digits[m - k];
    assert s[j] == if sign == "" then digits[0] else sign[0];
    assert !IsSpace(s[j]);
    SkipsAllSpaces(s, i, j);
    SkipsAllDigits(s, k, e);
  }

  /** And what is scanned as a number has that form. */
  lemma ScannedHasForm(s: string, i: nat) returns (blanks: string, sign: string, digits: string)
    requires i <= |s| && ScanInt(s, i).Match?
    ensures s[i..ScanInt(s, i).end] == blanks + sign + digits && i <= ScanInt(s, i).end <= |s|
    ensures IsBlanks(blanks) && IsSign(sign) && IsNumeral(digits)
    ensures ScanInt(s, i).end < |s| ==> !IsDigit(s[ScanInt(s, i).end])
  {
    hide Value;
    var j := SkipSpaces(s, i);
    var k := if j < |s| && (s[j] == '-' || s[j] == '+') then j + 1 else j;
    var e := SkipDigits(s, k);
    SpacesSkipped(s, i);
    DigitsSkipped(s, k);
    blanks, sign, digits := s[i..j], s[j..k], s[k..e];
    assert s[i..e] == blanks + sign + digits;
  }

  /**
   `add2` complains exactly about the lines that cannot be cut into two integers: blanks, a sign or
   none, a longest nonempty numeral, and once more, and whatever is behind.
   */
  lemma ComplaintIff(line: string)
    ensures Reply(line) == "invalid args\n" <==> !exists c :: Cuts(line, c)
  {
    var first := ScanInt(line, 0);
    if first.Match? && ScanInt(line, first.end).Match? {
      var c := CutOf(line);
      ReplyToCut(line, c);
      var n := Wrap(Wrap(Number(c.sign1, c.digits1)) + Wrap(Number(c.sign2, c.digits2)));
      DecimalSpells(n);
      assert Reply(line)[0] == Decimal(n)[0];
      assert Decimal(n)[0] != 'i';
        assert "invalid args\n"[0] == 'i';
    } else {
      forall c
        ensures !Cuts(line, c)
      {
        if Cuts(line, c) {
          ScanCut(line, c);
        }
      }
    }
  }

  lemma CutOf(line: string) returns (c: Cut)
    requires ScanInt(line, 0).Match? && ScanInt(line, ScanInt(line, 0).end).Match?
    ensures Cuts(line, c)
  {
    hide ScanInt;
    var i := ScanInt(line, 0).end;
    var e := ScanInt(line, i).end;
    var b1, s1, d1 := ScannedHasForm(line, 0);
    var b2, s2, d2 := ScannedHasForm(line, i);
    c := Cut(b1, s1, d1, b2, s2, d2, line[e..]);
    assert line == line[..i] + line[i..e] + line[e..];
    assert line[..i] == line[0..i] == b1 + s1 + d1;
  }

  lemma ScanCut(line: string, c: Cut)
    requires Cuts(line, c)
    ensures ScanInt(line, 0) == Match(Number(c.sign1, c.digits1), |c.blanks1 + c.sign1 + c.digits1|)
    ensures ScanInt(line, |c.blanks1 + c.sign1 + c.digits1|).Match?
    ensures ScanInt(line, |c.blanks1 + c.sign1 + c.digits1|).value == Number(c.sign2, c.digits2)
  {
    hide ScanInt, Number;
    var one, two := c.blanks1 + c.sign1 + c.digits1, c.blanks2 + c.sign2 + c.digits2;
    var i := |one|;
    assert line == one + two + c.rest;
    assert one <= line[0..];
    assert line[i..] == two + c.rest;
    assert two <= line[i..];
    assert line[i] == two[0];
    assert two[0] == if c.blanks2 != "" then c.blanks2[0] else c.sign2[0];
    assert !IsDigit(two[0]);
    ScanNumeral(line, 0, c.blanks1, c.sign1, c.digits1);
    var e := i + |two|;
    assert e < |line| ==> line[e] == c.rest[0];
    ScanNumeral(line, i, c.blanks2, c.sign2, c.digits2);
  }

  /** Every other line is answered with the sum of its two integers, if they and the sum are ints. */
  lemma ReplyToCut(line: string, c: Cut)
    requires Cuts(line, c)
    ensures Reply(line) == Decimal(Wrap(Wrap(Number(c.sign1, c.digits1)) + Wrap(Number(c.sign2, c.digits2)))) + "\n"
    ensures var x, y := Number(c.sign1, c.digits1), Number(c.sign2, c.digits2);
            -0x8000_0000 <= x < 0x8000_0000 && -0x8000_0000 <= y < 0x8000_0000 && -0x8000_0000 <= x + y < 0x8000_0000
            ==> Reply(line) == Decimal(x + y) + "\n"
  {
    hide ScanInt, Number, Decimal;
    ScanCut(line, c);
  }
}
