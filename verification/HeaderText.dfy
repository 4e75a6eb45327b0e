/** The C library calls behind the trace headers: fgets in pieces of 254 characters, strtok on ':',
    strtoul with base 0, and printf's %x. */
module HeaderText {
  import opened Arith

  // ----- fgets(line, 255, file)

  const LIMIT := 254

  function LineLength(s: string, limit: nat): (n: nat)
    ensures n <= |s| && n <= limit
    ensures s != "" && limit > 0 ==> n > 0
    decreases |s|
  {
    if s == "" || limit == 0 then 0
    else if s[0] == '\n' then 1
    else 1 + LineLength(s[1..], limit - 1)
  }

  /** The next piece of the file: up to and including a newline, or 254 characters. */
  function Piece(s: string): string { s[..LineLength(s, LIMIT)] }

  function AfterPiece(s: string): string { s[LineLength(s, LIMIT)..] }

  /** A piece is at most 254 characters long, and that long if no newline comes first. */
  lemma {:induction false} LineLengthLimit(s: string, limit: nat)
    requires |s| >= limit && '\n' !in s[..limit]
    ensures LineLength(s, limit) == limit
    decreases limit
  {
    if limit > 0 {
      assert s[0] == s[..limit][0];
      assert s[1..][..limit - 1] == s[..limit][1..];
      LineLengthLimit(s[1..], limit - 1);
    }
  }

  lemma PieceLimit(s: string)
    ensures |Piece(s)| <= 254
    ensures |s| >= 254 && '\n' !in s[..254] ==> Piece(s) == s[..254]
  {
    if |s| >= 254 && '\n' !in s[..254] { LineLengthLimit(s, LIMIT); }
  }

  /** Empty, or ending in a newline. */
  predicate WholeLines(s: string) { s == "" || s[|s| - 1] == '\n' }

  lemma {:induction false} LineLengthPrefix(a: string, b: string, limit: nat)
    requires a != "" && WholeLines(a)
    ensures LineLength(a + b, limit) == LineLength(a, limit)
    decreases limit
  {
    if limit > 0 && a[0] != '\n' {
      assert (a + b)[1..] == a[1..] + b;
      LineLengthPrefix(a[1..], b, limit - 1);
    }
  }

  /** The pieces of whole lines do not depend on what follows them. */
  lemma PieceOfPrefix(a: string, b: string)
    requires a != "" && WholeLines(a)
    ensures Piece(a + b) == Piece(a) && AfterPiece(a + b) == AfterPiece(a) + b
    ensures WholeLines(AfterPiece(a))
  {
    LineLengthPrefix(a, b, LIMIT);
    var n := LineLength(a, LIMIT);
    assert (a + b)[..n] == a[..n];
    assert (a + b)[n..] == a[n..] + b;
  }

  /** Text that one fgets call takes up to its newline. */
  predicate FitsOnePiece(text: string) { '\n' !in text && |text| < LIMIT }

  lemma {:induction false} LineLengthOfLine(text: string, limit: nat)
    requires '\n' !in text && |text| < limit
    ensures LineLength(text + "\n", limit) == |text| + 1
    decreases limit
  {
    if text != "" {
      assert (text + "\n")[1..] == text[1..] + "\n";
      LineLengthOfLine(text[1..], limit - 1);
    }
  }

  lemma PieceOfLine(text: string)
    requires FitsOnePiece(text)
    ensures Piece(text + "\n") == text + "\n" && AfterPiece(text + "\n") == ""
  {
    LineLengthOfLine(text, LIMIT);
  }

  // ----- strtok(line, ":")

  function SkipColons(s: string): string {
    if s != "" && s[0] == ':' then SkipColons(s[1..]) else s
  }

  function Token(s: string): string {
    if s == "" || s[0] == ':' then "" else [s[0]] + Token(s[1..])
  }

  function AfterToken(s: string): string {
    if s == "" || s[0] == ':' then s else AfterToken(s[1..])
  }

  /** The second token of a line, or "" if there is none. */
  function SecondToken(line: string): string {
    Token(SkipColons(AfterToken(SkipColons(line))))
  }

  lemma {:induction false} AfterPlain(a: string, b: string)
    requires ':' !in a
    ensures AfterToken(a + b) == AfterToken(b)
  {
    if a == "" {
      assert a + b == b;
    } else {
      assert (a + b)[1..] == a[1..] + b;
      AfterPlain(a[1..], b);
    }
  }

  lemma {:induction false} TokenOfPlain(a: string)
    requires ':' !in a
    ensures Token(a) == a
  {
    if a != "" {
      TokenOfPlain(a[1..]);
      assert [a[0]] + a[1..] == a;
    }
  }

  /** A line "name: value": the second token is everything after the colon. */
  lemma SecondTokenOf(name: string, value: string)
    requires name != "" && ':' !in name && value != "" && ':' !in value
    ensures SecondToken(name + (":" + value)) == value
  {
    var line := name + (":" + value);
    assert SkipColons(line) == line;
    AfterPlain(name, ":" + value);
    assert (":" + value)[1..] == value;
    assert SkipColons(":" + value) == SkipColons(value) == value;
    TokenOfPlain(value);
  }

  // ----- strtoul(token, NULL, 0)

  const ULONG_MAX := 0xFFFF_FFFF_FFFF_FFFF

  predicate IsSpace(c: char) { c == ' ' || '\t' <= c <= '\r' }

  /** The value of a digit, or 99. */
  function DigitValue(c: char): nat {
    if '0' <= c <= '9' then (c - '0') as nat
    else if 'a' <= c <= 'z' then (c - 'a') as nat + 10
    else if 'A' <= c <= 'Z' then (c - 'A') as nat + 10
    else 99
  }

  function SkipSpaces(s: string): string {
    if s != "" && IsSpace(s[0]) then SkipSpaces(s[1..]) else s
  }

  datatype Base = Octal | Decimal | Hexadecimal

  function Radix(b: Base): nat { match b case Octal => 8 case Decimal => 10 case Hexadecimal => 16 }

  /** One more digit after the number `acc`. */
  function Shift(acc: nat, b: Base, d: nat): nat {
    match b case Octal => acc * 8 + d case Decimal => acc * 10 + d case Hexadecimal => acc * 16 + d
  }

  function Number(s: string, b: Base, acc: nat): nat {
    if s == "" || DigitValue(s[0]) >= Radix(b) then acc else Number(s[1..], b, Shift(acc, b, DigitValue(s[0])))
  }

  function Magnitude(s: string): nat {
    if |s| > 2 && s[0] == '0' && (s[1] == 'x' || s[1] == 'X') && DigitValue(s[2]) < 16 then Number(s[2..], Hexadecimal, 0)
    else if s != "" && s[0] == '0' then Number(s, Octal, 0)
    else Number(s, Decimal, 0)
  }

  function Strtoul(token: string): nat {
    var s := SkipSpaces(token);
    var negative := s != "" && s[0] == '-';
    var v := Magnitude(if s != "" && (s[0] == '-' || s[0] == '+') then s[1..] else s);
    if v > ULONG_MAX then ULONG_MAX else if negative && v > 0 then ULONG_MAX + 1 - v else v
  }

  /** A minus sign wraps the value round at 2^64, and too large values stay at the maximum. */
  lemma StrtoulOfMinus(s: string)
    requires s != "" && !IsSpace(s[0]) && s[0] != '-' && s[0] != '+' && 0 < Magnitude(s)
    ensures Strtoul(s) == if Magnitude(s) < 0x1_0000_0000_0000_0000 then Magnitude(s) else 0xFFFF_FFFF_FFFF_FFFF
    ensures Magnitude(s) < 0x1_0000_0000_0000_0000 ==> Strtoul("-" + s) + Strtoul(s) == 0x1_0000_0000_0000_0000
  {
    assert ("-" + s)[1..] == s;
    assert SkipSpaces(s) == s && SkipSpaces("-" + s) == "-" + s;
  }

  // ----- printf

  function HexDigit(d: nat): char
    requires d < 16
  {
    "0123456789abcdef"[d]
  }

  /** %x */
  function Hex(n: nat): string {
    if n < 16 then [HexDigit(n)] else Hex(n / 16) + [HexDigit(n % 16)]
  }

  lemma HexDigitValue(d: nat)
    requires d < 16
    ensures DigitValue(HexDigit(d)) == d && HexDigit(d) != ':' && HexDigit(d) != '\n'
  {}

  lemma NumberStep(high: nat, d: nat, tail: string)
    requires d < 16
    ensures Number([HexDigit(d)] + tail, Hexadecimal, high) == Number(tail, Hexadecimal, high * 16 + d)
  {
    HexDigitValue(d);
    assert ([HexDigit(d)] + tail)[1..] == tail;
  }

  lemma {:induction false} HexRoundTrip(n: nat, tail: string)
    ensures Number(Hex(n) + tail, Hexadecimal, 0) == Number(tail, Hexadecimal, n)
  {
    if n < 16 {
      NumberStep(0, n, tail);
    } else {
      var h, d := n / 16, n % 16;
      var last := [HexDigit(d)];
      calc {
        Number(Hex(n) + tail, Hexadecimal, 0);
        { Regroup(Hex(h), last, tail); }
        Number(Hex(h) + (last + tail), Hexadecimal, 0);
        { HexRoundTrip(h, last + tail); }
        Number(last + tail, Hexadecimal, h);
        { NumberStep(h, d, tail); }
        Number(tail, Hexadecimal, n);
      }
    }
  }

  lemma {:induction false} HexCharacters(n: nat)
    ensures Hex(n) != "" && DigitValue(Hex(n)[0]) < 16
    ensures ':' !in Hex(n) && '\n' !in Hex(n)
  {
    HexDigitValue(n % 16);
    if n >= 16 { HexCharacters(n / 16); }
  }

  function Power16(k: nat): nat {
    if k == 0 then 1 else 16 * Power16(k - 1)
  }

  lemma {:induction false} HexLength(n: nat, k: nat)
    requires k > 0 && n < Power16(k)
    ensures |Hex(n)| <= k
  {
    if n >= 16 { HexLength(n / 16, k - 1); }
  }

  lemma HexLengthOfWord(n: nat)
    requires n < 0x1_0000_0000
    ensures |Hex(n)| <= 8
  {
    assert Power16(8) == 16 * Power16(7) == 256 * Power16(6);
    assert Power16(6) == 16 * Power16(5) == 256 * Power16(4);
    assert Power16(4) == 16 * Power16(3) == 256 * Power16(2);
    HexLength(n, 8);
  }

  // ----- decimal numbers

  /** %u */
  function Dec(n: nat): string {
    if n < 10 then [HexDigit(n)] else Dec(n / 10) + [HexDigit(n % 10)]
  }

  lemma DecStep(high: nat, d: nat, tail: string)
    requires d < 10
    ensures Number([HexDigit(d)] + tail, Decimal, high) == Number(tail, Decimal, high * 10 + d)
  {
    HexDigitValue(d);
    assert ([HexDigit(d)] + tail)[1..] == tail;
  }

  /** Reading a printed decimal number back gives the number. */
  lemma {:induction false} DecRoundTrip(n: nat, tail: string)
    ensures Number(Dec(n) + tail, Decimal, 0) == Number(tail, Decimal, n)
  {
    if n < 10 {
      DecStep(0, n, tail);
    } else {
      var h, d := n / 10, n % 10;
      var last := [HexDigit(d)];
      calc {
        Number(Dec(n) + tail, Decimal, 0);
        { Regroup(Dec(h), last, tail); }
        Number(Dec(h) + (last + tail), Decimal, 0);
        { DecRoundTrip(h, last + tail); }
        Number(last + tail, Decimal, h);
        { DecStep(h, d, tail); }
        Number(tail, Decimal, n);
      }
    }
  }

  /** A decimal number has no leading zero, and digits only. */
  lemma {:induction false} DecCharacters(n: nat)
    ensures Dec(n) != "" && (n > 0 ==> Dec(n)[0] != '0') && (n == 0 ==> Dec(n) == "0")
    ensures forall i :: 0 <= i < |Dec(n)| ==> DigitValue(Dec(n)[i]) < 10
  {
    HexDigitValue(n % 10);
    if n >= 10 { DecCharacters(n / 10); }
  }

  /** So strtoul with base 0 takes it for a decimal number. */
  lemma MagnitudeDec(n: nat)
    ensures Magnitude(Dec(n)) == n
  {
    DecCharacters(n);
    if n == 0 {
      assert Number("0", Octal, 0) == Number("0"[1..], Octal, 0) == 0;
    } else {
      DecRoundTrip(n, "");
      assert Dec(n) + "" == Dec(n);
    }
  }

  lemma MagnitudeOfHex(n: nat)
    ensures Magnitude("0x" + Hex(n)) == n
  {
    HexCharacters(n);
    HexRoundTrip(n, "");
    var s := "0x" + Hex(n);
    assert s[2] == Hex(n)[0] && s[2..] == Hex(n) && Hex(n) + "" == Hex(n);
  }

  // ----- what else strtok and strtoul accept

  lemma LeadingColons(line: string)
    ensures SecondToken(":" + line) == SecondToken(line)
  {
    assert (":" + line)[1..] == line;
  }

  lemma LeadingSpaces(c: char, s: string)
    requires c in [' ', '\t', '\n', '\r', '\U{b}', '\U{c}']
    ensures Strtoul([c] + s) == Strtoul(s)
  {
    assert ([c] + s)[1..] == s;
  }

  lemma PlusSign(s: string)
    requires s != "" && !IsSpace(s[0]) && s[0] != '-' && s[0] != '+'
    ensures Strtoul("+" + s) == Strtoul(s)
  {
    assert ("+" + s)[1..] == s;
    assert SkipSpaces(s) == s && SkipSpaces("+" + s) == "+" + s;
  }

  lemma UpperCaseHex(d: nat)
    requires d < 26
    ensures DigitValue('A' + d as char) == DigitValue('a' + d as char) == 10 + d
  {}

  lemma CapitalX(s: string)
    requires s != "" && DigitValue(s[0]) < 16
    ensures Magnitude("0X" + s) == Magnitude("0x" + s) == Number(s, Hexadecimal, 0)
  {
    assert ("0X" + s)[2..] == s && ("0x" + s)[2..] == s;
  }

  /** %o */
  function Oct(n: nat): string {
    if n < 8 then [HexDigit(n)] else Oct(n / 8) + [HexDigit(n % 8)]
  }

  lemma OctStep(high: nat, d: nat, tail: string)
    requires d < 8
    ensures Number([HexDigit(d)] + tail, Octal, high) == Number(tail, Octal, high * 8 + d)
  {
    HexDigitValue(d);
    assert ([HexDigit(d)] + tail)[1..] == tail;
  }

  /** A number ends before the first character that is no digit of its base. */
  lemma NumberEnds(c: char, tail: string, b: Base, acc: nat)
    requires match b
      case Octal => !('0' <= c <= '7')
      case Decimal => !('0' <= c <= '9')
      case Hexadecimal => !('0' <= c <= '9' || 'a' <= c <= 'f' || 'A' <= c <= 'F')
    ensures Number([c] + tail, b, acc) == acc
  {}

  lemma {:induction false} OctRoundTrip(n: nat, tail: string)
    ensures Number(Oct(n) + tail, Octal, 0) == Number(tail, Octal, n)
  {
    if n < 8 {
      OctStep(0, n, tail);
    } else {
      var h, d := n / 8, n % 8;
      var last := [HexDigit(d)];
      Regroup(Oct(h), last, tail);
      OctRoundTrip(h, last + tail);
      OctStep(h, d, tail);
    }
  }

  lemma {:induction false} OctDigits(n: nat)
    ensures Oct(n) != "" && '0' <= Oct(n)[0] <= '7'
  {
    HexDigitValue(n % 8);
    if n >= 8 { OctDigits(n / 8); }
  }

  /** A leading zero makes the number octal. */
  lemma MagnitudeOct(n: nat)
    ensures Magnitude("0" + Oct(n)) == n
  {
    var s := "0" + Oct(n);
    OctDigits(n);
    assert s[0] == '0' && s[1] == Oct(n)[0] && s[1..] == Oct(n);
    assert Number(s, Octal, 0) == Number(Oct(n), Octal, 0);
    OctRoundTrip(n, "");
    assert Oct(n) + "" == Oct(n);
  }
}
