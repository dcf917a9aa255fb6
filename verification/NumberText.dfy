/** The text of numbers in kservice.c: digits, print_number and skip_atoi. */
module NumberText {
  import opened Bits

  /** The conversion flags of rt_vsnprintf. */
  datatype Flags = Flags(zeroPad: bool, sign: bool, plus: bool, space: bool, left: bool, special: bool, large: bool)

  const NoFlags := Flags(false, false, false, false, false, false, false)

  const WORD: nat := 0x1_0000_0000

  /** The value of a 32-bit pattern read as a signed int. */
  function Signed(x: int): (r: int)
    ensures -0x8000_0000 <= r < 0x8000_0000
  {
    var m := x % 0x1_0000_0000;
    if m < 0x8000_0000 then m else m - 0x1_0000_0000
  }

  function Digit(d: nat, large: bool): char
    requires d < 16
  {
    if d < 10 then (d + '0' as int) as char
    else if large then (d - 10 + 'A' as int) as char
    else (d - 10 + 'a' as int) as char
  }

  /** The same characters as in the two tables of print_number. */
  lemma DigitTables(d: nat)
    requires d < 16
    ensures Digit(d, true) == "0123456789ABCDEF"[d] && Digit(d, false) == "0123456789abcdef"[d]
  {
  }

  /** The digits of num, most significant first. */
  function Digits(num: nat, base: nat, large: bool): (r: string)
    requires 2 <= base <= 16
    ensures r != []
    decreases num
  {
    if num < base then [Digit(num, large)]
    else Digits(num / base, base, large) + [Digit(num % base, large)]
  }

  function Reversed(s: string): (r: string)
    ensures |r| == |s| && forall i :: 0 <= i < |s| ==> r[i] == s[|s| - 1 - i]
  {
    if s == [] then [] else Reversed(s[1..]) + [s[0]]
  }

  // ---------- what the digits mean ----------

  predicate IsDigit(c: char) { '0' <= c <= '9' }

  function DigitValue(c: char): nat {
    if '0' <= c <= '9' then c as nat - '0' as nat
    else if 'a' <= c <= 'f' then c as nat - 'a' as nat + 10
    else if 'A' <= c <= 'F' then c as nat - 'A' as nat + 10
    else 0
  }

  lemma DigitRoundTrip(d: nat, large: bool)
    requires d < 16
    ensures DigitValue(Digit(d, large)) == d && (d < 10 ==> IsDigit(Digit(d, large)))
  {
  }

  /** A digit string read in positional notation. */
  function Value(s: string, base: nat): nat {
    if s == [] then 0 else Value(s[..|s| - 1], base) * base + DigitValue(s[|s| - 1])
  }

  lemma ValueSnoc(s: string, c: char, base: nat)
    ensures Value(s + [c], base) == Value(s, base) * base + DigitValue(c)
  {
    assert (s + [c])[..|s|] == s;
  }

  lemma DivMod(num: nat, base: nat)
    requires base > 0
    ensures num / base * base + num % base == num
  {
  }

  /** The digits denote the number, in every base and either case. */
  lemma {:induction false} DigitsDenote(num: nat, base: nat, large: bool)
    requires 2 <= base <= 16
    ensures Value(Digits(num, base, large), base) == num
    decreases num
  {
    if num < base {
      DigitRoundTrip(num, large);
      ValueSnoc([], Digit(num, large), base);
      assert [] + [Digit(num, large)] == [Digit(num, large)];
    } else {
      var q, r := num / base, num % base;
      DivMod(num, base);
      HalfBelow(num, base);
      DigitsDenote(q, base, large);
      DigitRoundTrip(r, large);
      ValueSnoc(Digits(q, base, large), Digit(r, large), base);
    }
  }

  lemma {:induction false} DecimalDigits(num: nat, large: bool)
    ensures forall i :: 0 <= i < |Digits(num, 10, large)| ==> IsDigit(Digits(num, 10, large)[i])
  {
    if num >= 10 {
      DecimalDigits(num / 10, large);
      DigitRoundTrip(num % 10, large);
    } else {
      DigitRoundTrip(num, large);
    }
  }

  lemma HalfBelow(num: nat, base: nat)
    requires base >= 2
    ensures num / base <= num / 2
  {
    var q := num / base;
    assert q * base <= num;
    assert 2 * q <= q * base;
  }

  /** The temporary buffer of 32 characters is long enough for every 32-bit number in every base. */
  lemma {:induction false} DigitsFit(num: nat, base: nat, large: bool, k: nat)
    requires 2 <= base <= 16 && k >= 1 && num < Pow2(k)
    ensures |Digits(num, base, large)| <= k
    decreases num
  {
    if num >= base {
      HalfBelow(num, base);
      DigitsFit(num / base, base, large, k - 1);
    }
  }

  // ---------- print_number ----------

  function Rep(c: char, n: int): (r: string)
    ensures |r| == (if n > 0 then n else 0) && forall i :: 0 <= i < |r| ==> r[i] == c
  {
    if n <= 0 then [] else Rep(c, n - 1) + [c]
  }

  /** A counter after `while (n-- > 0)`. */
  function RunOut(n: int): int { if n > 0 then -1 else n - 1 }

  /** The magnitude and the sign character ('\0' for none) of a number. */
  function SignOf(num: nat, qualifier: char, f: Flags): (r: (nat, char))
    requires num < WORD
    ensures r.0 < WORD
  {
    if !f.sign then (num, '\0')
    else if qualifier == 'h' && num % 0x1_0000 >= 0x8000 then ((0x1_0000 - num % 0x1_0000) % 0x1_0000, '-')
    else if qualifier != 'h' && num >= 0x8000_0000 then (WORD - num, '-')
    else (num, if f.plus then '+' else if f.space then ' ' else '\0')
  }

  function Prefix(base: nat, f: Flags): string {
    if !f.special then ""
    else if base == 2 then "0b"
    else if base == 8 then "0"
    else if base == 16 then (if f.large then "0X" else "0x")
    else ""
  }

  /** The room left for blanks in front once a sign is provided for. */
  function BlankRoom(f: Flags, sign: char, room: int): int {
    if sign != '\0' && room > 0 then room - 1 else room
  }

  /** The room counter once blanks, sign and filling are written. */
  function FillRoom(f: Flags, sign: char, room: int): int {
    var r := if !f.zeroPad && !f.left then RunOut(BlankRoom(f, sign, room)) else room;
    if sign != '\0' then r - 1 else r
  }

  function EndRoom(f: Flags, sign: char, room: int): int {
    if !f.left then RunOut(FillRoom(f, sign, room)) else FillRoom(f, sign, room)
  }

  function BlankText(f: Flags, sign: char, room: int): string {
    if !f.zeroPad && !f.left then Rep(' ', BlankRoom(f, sign, room)) else ""
  }

  function SignText(sign: char): string { if sign != '\0' then [sign] else "" }

  function FillText(f: Flags, sign: char, room: int): string {
    if !f.left then Rep(if f.zeroPad then '0' else ' ', FillRoom(f, sign, room)) else ""
  }

  /** Blanks, sign, prefix and filling. */
  function FrontText(f: Flags, base: nat, sign: char, room: int): string {
    BlankText(f, sign, room) + SignText(sign) + (Prefix(base, f) + FillText(f, sign, room))
  }

  /** Leading zeros, digits (none at all for precision 0) and trailing blanks. */
  function BackText(digits: string, places: int, precision: int, room: int): string {
    Rep('0', places - |digits|) + (if precision != 0 then digits else "") + Rep(' ', room)
  }

  /** Sign and digits, laid out in a field. */
  function Field(f: Flags, base: nat, sign: char, digits: string, width: int, precision: int): string {
    var places := if |digits| > precision then |digits| else precision;
    var room := width - |Prefix(base, f)| - places;
    FrontText(f, base, sign, room) + BackText(digits, places, precision, EndRoom(f, sign, room))
  }

  /** Everything print_number would write into an unlimited buffer. */
  function PrintedNumber(num: nat, base: nat, qualifier: char, width: int, precision: int, flags: Flags): string
    requires num < WORD && 2 <= base <= 16
  {
    var f := flags.(zeroPad := flags.zeroPad && !flags.left);
    var (mag, sign) := SignOf(num, qualifier, f);
    Field(f, base, sign, Digits(mag, base, f.large), width, precision)
  }

  /** A plain conversion is just the digits. */
  lemma PlainText(num: nat, f: Flags)
    requires num < 0x8000_0000 && (f == NoFlags || f == NoFlags.(sign := true))
    ensures PrintedNumber(num, 10, '\0', -1, -1, f) == Digits(num, 10, false)
  {
    assert SignOf(num, '\0', f) == (num, '\0');
    assert Prefix(10, f) == "";
  }

  // ---------- skip_atoi ----------

  /** The character of a C string at i. */
  function At(s: string, i: nat): char { if i < |s| then s[i] else '\0' }

  /** Where the run of decimal digits from i on ends. */
  function RunEnd(s: string, i: nat): (r: nat)
    ensures r >= i && (i <= |s| ==> r <= |s|)
    ensures !IsDigit(At(s, r)) && forall k :: i <= k < r ==> IsDigit(At(s, k))
    decreases if i < |s| then |s| - i else 0
  {
    if IsDigit(At(s, i)) then RunEnd(s, i + 1) else i
  }

  /** skip_atoi: the value of the digits, in 32-bit arithmetic. */
  function Atoi(s: string, i: nat): int
    requires i <= |s|
  {
    Signed(Value(s[i..RunEnd(s, i)], 10))
  }

  lemma ValueStep(s: string, i: nat, j: nat)
    requires i <= j < |s|
    ensures Value(s[i..j + 1], 10) == Value(s[i..j], 10) * 10 + DigitValue(s[j])
  {
    assert s[i..j + 1][..j - i] == s[i..j];
  }

  lemma SignedShift(x: int, k: int)
    ensures Signed(x + k * 0x1_0000_0000) == Signed(x)
  {
  }

  lemma SignedStep(v: int, d: int)
    ensures Signed(Signed(v) * 10 + d) == Signed(v * 10 + d)
  {
    var k := if v % 0x1_0000_0000 < 0x8000_0000 then v / 0x1_0000_0000 else v / 0x1_0000_0000 + 1;
    assert Signed(v) == v - k * 0x1_0000_0000;
    SignedShift(v * 10 + d, -10 * k);
  }

  method SkipAtoi(s: string, start: nat) returns (value: int, next: nat)
    requires start <= |s|
    ensures value == Atoi(s, start) && next == RunEnd(s, start)
  {
    value, next := 0, start;
    assert s[start..start] == [];
    while IsDigit(At(s, next))
      invariant start <= next <= |s| && RunEnd(s, next) == RunEnd(s, start)
      invariant value == Signed(Value(s[start..next], 10))
      decreases |s| - next
    {
      ValueStep(s, start, next);
      SignedStep(Value(s[start..next], 10), DigitValue(s[next]));
      value := Signed(value * 10 + (s[next] as int - '0' as int));
      next := next + 1;
    }
  }

  lemma DigitsReadBack(num: nat)
    requires num < 0x8000_0000
    ensures var s := Digits(num, 10, false); RunEnd(s, 0) == |s| && Atoi(s, 0) == num
  {
    var s := Digits(num, 10, false);
    DecimalDigits(num, false);
    DigitsDenote(num, 10, false);
    RunOfAll(s);
    assert s[0..|s|] == s;
  }

  lemma RunOfAll(s: string)
    requires forall k: nat :: k < |s| ==> IsDigit(s[k])
    ensures RunEnd(s, 0) == |s|
  {
  }

  /** Reading back a plain decimal conversion gives the number. */
  lemma NumberRoundTrip(num: nat, f: Flags)
    requires num < 0x8000_0000 && (f == NoFlags || f == NoFlags.(sign := true))
    ensures var s := PrintedNumber(num, 10, '\0', -1, -1, f);
      RunEnd(s, 0) == |s| && Atoi(s, 0) == num
  {
    PlainText(num, f);
    DigitsReadBack(num);
  }
}
