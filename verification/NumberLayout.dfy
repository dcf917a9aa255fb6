/** What print_number shows, said without its counters: sign, prefix, zeros, digits and blanks. */
module NumberLayout {
  import opened NumberText

  /**
   A number in a field of the given width: on the left; or filled with zeros behind sign and
   prefix; or on the right.
   */
  function Layout(sign: string, prefix: string, zeros: nat, digits: string, width: int, left: bool, zeroPad: bool): string {
    var n := |sign| + |prefix| + zeros + |digits|;
    var spare := if width > n then width - n else 0;
    if left then sign + prefix + Rep('0', zeros) + digits + Rep(' ', spare)
    else if zeroPad then sign + prefix + Rep('0', spare + zeros) + digits
    else Rep(' ', spare) + sign + prefix + Rep('0', zeros) + digits
  }

  /** The field is filled exactly, unless the number is wider. */
  lemma LayoutLength(sign: string, prefix: string, zeros: nat, digits: string, width: int, left: bool, zeroPad: bool)
    ensures var n := |sign| + |prefix| + zeros + |digits|;
      |Layout(sign, prefix, zeros, digits, width, left, zeroPad)| == if width > n then width else n
  {
  }

  /** Leading zeros do not change what digits denote. */
  lemma {:induction false} ZerosDenote(zeros: nat, digits: string, base: nat)
    ensures Value(Rep('0', zeros) + digits, base) == Value(digits, base)
    decreases |digits|, zeros
  {
    var s := Rep('0', zeros) + digits;
    if digits != [] {
      assert s[..|s| - 1] == Rep('0', zeros) + digits[..|digits| - 1];
      ZerosDenote(zeros, digits[..|digits| - 1], base);
    } else if zeros > 0 {
      assert s[..|s| - 1] == Rep('0', zeros - 1) + [];
      ZerosDenote(zeros - 1, [], base);
    } else {
      assert s == [];
    }
  }

  /**
   Where things stand: after `at` blanks the sign, then the prefix, then the zeros and digits, which
   together denote what the digits denote, and blanks behind them on the left of the field only.
   */
  lemma LayoutParts(sign: string, prefix: string, zeros: nat, digits: string, width: int, left: bool, zeroPad: bool, base: nat)
    returns (at: nat, fill: nat, tail: nat)
    ensures Layout(sign, prefix, zeros, digits, width, left, zeroPad)
         == Rep(' ', at) + (sign + (prefix + ((Rep('0', fill) + digits) + Rep(' ', tail))))
    ensures Value(Rep('0', fill) + digits, base) == Value(digits, base) && fill >= zeros
    ensures (left || zeroPad ==> at == 0) && (!left ==> tail == 0) && (left || !zeroPad ==> fill == zeros)
  {
    var n := |sign| + |prefix| + zeros + |digits|;
    var spare := if width > n then width - n else 0;
    at := if left || zeroPad then 0 else spare;
    tail := if left then spare else 0;
    fill := if !left && zeroPad then spare + zeros else zeros;
    ZerosDenote(fill, digits, base);
    Regroup(Rep(' ', at), sign, prefix, Rep('0', fill), digits, Rep(' ', tail));
  }

  lemma Regroup(a: string, b: string, c: string, d: string, e: string, f: string)
    ensures a + (b + (c + ((d + e) + f))) == a + b + c + d + e + f
    ensures a == [] ==> a + b + c + d + e + f == b + c + d + e + f
    ensures f == [] ==> a + b + c + d + e + f == a + b + c + d + e
    ensures a == [] && f == [] ==> a + b + c + d + e + f == b + c + d + e
  {
  }

  lemma RepSum(c: char, i: nat, j: nat)
    ensures Rep(c, i) + Rep(c, j) == Rep(c, i + j)
  {
  }

  /** The counters of print_number come to this layout, whenever there is room for digits at all. */
  lemma FieldIsLayout(f: Flags, base: nat, sign: char, digits: string, width: int, precision: int, zeroPad: bool,
                      st: string, p: string, zeros: nat)
    requires precision != 0 && digits != [] && f.zeroPad == (zeroPad && !f.left) && st == SignText(sign) && p == Prefix(base, f)
    requires zeros == if precision > |digits| then precision - |digits| else 0
    ensures Field(f, base, sign, digits, width, precision) == Layout(st, p, zeros, digits, width, f.left, zeroPad)
  {
    var places := zeros + |digits|;
    var front, end := FrontShort(f, base, sign, width - |p| - places, zeroPad, st, p);
    var back := BackShort(digits, places, precision, end);
    FieldParts(f, base, sign, digits, width, precision, places, width - |p| - places, front, back);
    LaidOut(st, p, zeros, digits, width, f.left, zeroPad, front, back, end);
  }

  /** A precision of 0 leaves the digits of every number out, though not the room for them. */
  lemma FieldWithoutDigits(f: Flags, base: nat, sign: char, digits: string, width: int, zeroPad: bool, st: string, p: string)
    requires f.zeroPad == (zeroPad && !f.left) && st == SignText(sign) && p == Prefix(base, f)
    ensures Field(f, base, sign, digits, width, 0) == Layout(st, p, 0, "", width - |digits|, f.left, zeroPad)
  {
    var room := width - |p| - |digits|;
    var front, end := FrontShort(f, base, sign, room, zeroPad, st, p);
    var back := NoBack(digits, end);
    FieldParts(f, base, sign, digits, width, 0, |digits|, room, front, back);
    LaidOut(st, p, 0, "", width - |digits|, f.left, zeroPad, front, back, end);
  }

  lemma LaidOut(st: string, p: string, zeros: nat, digits: string, width: int, left: bool, zeroPad: bool,
                front: string, back: string, end: int)
    requires var need := width - |p| - zeros - |digits| - |st|;
      var spare := if need > 0 then need else 0;
      && (left ==> end == need) && (!left ==> end < 0)
      && front == if left then st + p else if zeroPad then st + (p + Rep('0', spare)) else Rep(' ', spare) + st + p
    requires back == Rep('0', zeros) + digits + Rep(' ', end)
    ensures front + back == Layout(st, p, zeros, digits, width, left, zeroPad)
  {
    var need := width - |p| - zeros - |digits| - |st|;
    var spare := if need > 0 then need else 0;
    var z := Rep('0', zeros);
    if left {
      assert Rep(' ', end) == Rep(' ', spare);
      LeftPieces(front, back, st, p, z, digits, Rep(' ', spare));
    } else if zeroPad {
      RepSum('0', spare, zeros);
      ZeroPieces(front, back, st, p, Rep('0', spare), z, Rep('0', spare + zeros), digits);
    } else {
      RightPieces(front, back, Rep(' ', spare), st, p, z, digits);
    }
  }

  lemma FieldParts(f: Flags, base: nat, sign: char, digits: string, width: int, precision: int, places: int, room: int,
                   front: string, back: string)
    requires places == if |digits| > precision then |digits| else precision
    requires room == width - |Prefix(base, f)| - places
    requires front == FrontText(f, base, sign, room) && back == BackText(digits, places, precision, EndRoom(f, sign, room))
    ensures Field(f, base, sign, digits, width, precision) == front + back
  {
  }

  lemma LeftPieces(front: string, back: string, s: string, p: string, z: string, d: string, tail: string)
    requires front == s + p && back == z + d + tail
    ensures front + back == s + p + z + d + tail
  {
  }

  lemma ZeroPieces(front: string, back: string, s: string, p: string, more: string, z: string, all: string, d: string)
    requires front == s + (p + more) && back == z + d + [] && more + z == all
    ensures front + back == s + p + all + d
  {
    assert front + back == s + p + (more + z) + d;
  }

  lemma RightPieces(front: string, back: string, blanks: string, s: string, p: string, z: string, d: string)
    requires front == blanks + s + p && back == z + d + []
    ensures front + back == blanks + s + p + z + d
  {
  }

  lemma NoBack(digits: string, room: int) returns (back: string)
    ensures back == BackText(digits, |digits|, 0, room) && back == Rep('0', 0) + "" + Rep(' ', room)
  {
    back := BackText(digits, |digits|, 0, room);
  }

  lemma BackShort(digits: string, places: int, precision: int, room: int) returns (back: string)
    requires precision != 0 && places >= |digits|
    ensures back == BackText(digits, places, precision, room)
    ensures back == Rep('0', places - |digits|) + digits + Rep(' ', room)
  {
    back := BackText(digits, places, precision, room);
  }

  /** Blanks, sign, prefix and filling come to spare blanks or zeros. */
  lemma FrontShort(f: Flags, base: nat, sign: char, room: int, zeroPad: bool, st: string, p: string) returns (front: string, end: int)
    requires f.zeroPad == (zeroPad && !f.left) && st == SignText(sign) && p == Prefix(base, f)
    ensures front == FrontText(f, base, sign, room) && end == EndRoom(f, sign, room)
    ensures var need := room - |st|;
      var spare := if need > 0 then need else 0;
      front == if f.left then st + p else if zeroPad then st + (p + Rep('0', spare)) else Rep(' ', spare) + st + p
    ensures if f.left then end == room - |st| else end < 0
  {
    front, end := FrontText(f, base, sign, room), EndRoom(f, sign, room);
  }

  // ---------- digits ----------

  predicate IsDigitOf(c: char, base: nat, large: bool) {
    DigitValue(c) < base && (IsDigit(c) || (if large then 'A' <= c <= 'F' else 'a' <= c <= 'f'))
  }

  /** Digits of the base in the case asked for, without leading zeros, that denote n. */
  ghost predicate Shows(ds: string, n: nat, base: nat, large: bool) {
    && ds != [] && (ds[0] == '0' ==> |ds| == 1) && Value(ds, base) == n
    && forall k :: 0 <= k < |ds| ==> IsDigitOf(ds[k], base, large)
  }

  lemma DigitsShow(n: nat, base: nat, large: bool)
    requires 2 <= base <= 16
    ensures Shows(Digits(n, base, large), n, base, large)
  {
    DigitsDenote(n, base, large);
    LeadDigit(n, base, large);
    DigitsOfBase(n, base, large);
    if n == 0 { assert Digits(n, base, large) == "0"; }
  }

  lemma DigitOfBase(d: nat, base: nat, large: bool)
    requires d < base <= 16
    ensures IsDigitOf(Digit(d, large), base, large)
  {
  }

  lemma {:induction false} DigitsOfBase(n: nat, base: nat, large: bool)
    requires 2 <= base <= 16
    ensures forall k :: 0 <= k < |Digits(n, base, large)| ==> IsDigitOf(Digits(n, base, large)[k], base, large)
    decreases n
  {
    var q, r := n / base, n % base;
    DigitOfBase(r, base, large);
    if n >= base {
      HalfBelow(n, base);
      DigitsOfBase(q, base, large);
      assert Digits(n, base, large) == Digits(q, base, large) + [Digit(r, large)];
    }
  }

  /** The digits of a number do not begin with a zero, unless it is 0. */
  lemma {:induction false} LeadDigit(n: nat, base: nat, large: bool)
    requires 2 <= base <= 16
    ensures var ds := Digits(n, base, large);
      (ds[0] == '0' <==> n == 0) && (n == 0 ==> ds == "0") && (n != 0 ==> ds[0] != '0')
    decreases n
  {
    if n >= base {
      HalfBelow(n, base);
      LeadDigit(n / base, base, large);
      assert n / base > 0;
    }
  }

  /** A number in its field: a precision asks for as many digits at least, but 0 asks for none. */
  function NumberField(sign: string, prefix: string, ds: string, width: int, precision: int, left: bool, zeroPad: bool): string {
    if precision == 0 then Layout(sign, prefix, 0, "", width - |ds|, left, zeroPad)
    else Layout(sign, prefix, if precision > |ds| then precision - |ds| else 0, ds, width, left, zeroPad)
  }

  /** Everything print_number would write, as a layout. */
  lemma PrintedIsLayout(num: nat, base: nat, q: char, width: int, precision: int, flags: Flags, mag: nat, sign: char)
    returns (ds: string)
    requires num < WORD && 2 <= base <= 16 && (mag, sign) == SignOf(num, q, flags)
    ensures Shows(ds, mag, base, flags.large)
    ensures PrintedNumber(num, base, q, width, precision, flags)
         == NumberField(SignText(sign), Prefix(base, flags), ds, width, precision, flags.left, flags.zeroPad)
  {
    var f := flags.(zeroPad := flags.zeroPad && !flags.left);
    ds := Digits(mag, base, flags.large);
    DigitsShow(mag, base, flags.large);
    PrintedIsField(num, base, q, width, precision, flags, f, mag, sign, ds);
    FieldShown(f, base, sign, ds, width, precision, flags.zeroPad);
  }

  lemma FieldShown(f: Flags, base: nat, sign: char, ds: string, width: int, precision: int, zeroPad: bool)
    requires f.zeroPad == (zeroPad && !f.left) && ds != []
    ensures Field(f, base, sign, ds, width, precision)
         == NumberField(SignText(sign), Prefix(base, f), ds, width, precision, f.left, zeroPad)
  {
    if precision != 0 {
      FieldIsLayout(f, base, sign, ds, width, precision, zeroPad, SignText(sign), Prefix(base, f),
        if precision > |ds| then precision - |ds| else 0);
    } else {
      FieldWithoutDigits(f, base, sign, ds, width, zeroPad, SignText(sign), Prefix(base, f));
    }
  }

  lemma PrintedIsField(num: nat, base: nat, q: char, width: int, precision: int, flags: Flags, f: Flags,
                       mag: nat, sign: char, ds: string)
    requires num < WORD && 2 <= base <= 16 && (mag, sign) == SignOf(num, q, flags)
    requires f == flags.(zeroPad := flags.zeroPad && !flags.left) && ds == Digits(mag, base, flags.large)
    ensures PrintedNumber(num, base, q, width, precision, flags) == Field(f, base, sign, ds, width, precision)
    ensures Prefix(base, f) == Prefix(base, flags)
  {
    assert SignOf(num, q, f) == SignOf(num, q, flags);
  }
}
