/** rt_vsnprintf (kservice.c): what a format means, and how much of it reaches the buffer. */
module Printf {
  import opened Wrappers
  import opened Bits
  import opened NumberText

  /** An argument.  Reading one of the wrong kind, or one too many, is undefined in C and yields 0 or NULL here. */
  datatype Arg = Word(v: nat) | Text(s: Option<string>)

  function WordAt(args: seq<Arg>, k: nat): (r: nat)
    ensures r < WORD
  {
    if k < |args| && args[k].Word? then args[k].v % WORD else 0
  }

  function TextAt(args: seq<Arg>, k: nat): string {
    if k < |args| && args[k].Text? && args[k].s.Some? then CString(args[k].s.value) else "(NULL)"
  }

  /** The characters before the terminating NUL. */
  function CString(s: string): string {
    if s == [] || s[0] == '\0' then [] else [s[0]] + CString(s[1..])
  }

  // ---------- reading a conversion specification ----------

  predicate IsFlag(c: char) { c == '-' || c == '+' || c == ' ' || c == '#' || c == '0' }

  function AddFlag(f: Flags, c: char): Flags {
    if c == '-' then f.(left := true)
    else if c == '+' then f.(plus := true)
    else if c == ' ' then f.(space := true)
    else if c == '#' then f.(special := true)
    else f.(zeroPad := true)
  }

  function FlagsEnd(fmt: string, i: nat): (r: nat)
    requires i <= |fmt|
    ensures i <= r <= |fmt|
    decreases |fmt| - i
  {
    if IsFlag(At(fmt, i)) then FlagsEnd(fmt, i + 1) else i
  }

  function ReadFlags(fmt: string, i: nat, f: Flags): Flags
    requires i <= |fmt|
    decreases |fmt| - i
  {
    if IsFlag(At(fmt, i)) then ReadFlags(fmt, i + 1, AddFlag(f, fmt[i])) else f
  }

  /** A specification up to its conversion character at `next`; k arguments have been used. */
  datatype Spec = Spec(flags: Flags, width: int, precision: int, qualifier: char, next: nat, k: nat)

  function ReadWidth(fmt: string, i: nat, args: seq<Arg>, k: nat, f: Flags): (r: Spec)
    requires i <= |fmt|
    ensures i <= r.next <= |fmt|
  {
    if IsDigit(At(fmt, i)) then Spec(f, Atoi(fmt, i), -1, '\0', RunEnd(fmt, i), k)
    else if At(fmt, i) == '*' then
      var w := Signed(WordAt(args, k));
      if w < 0 then Spec(f.(left := true), Signed(-w), -1, '\0', i + 1, k + 1) else Spec(f, w, -1, '\0', i + 1, k + 1)
    else Spec(f, -1, -1, '\0', i, k)
  }

  function ReadPrecision(fmt: string, args: seq<Arg>, s: Spec): (r: Spec)
    requires s.next <= |fmt|
    ensures s.next <= r.next <= |fmt|
  {
    if At(fmt, s.next) != '.' then s
    else
      var i := s.next + 1;
      if IsDigit(At(fmt, i)) then s.(precision := AtLeast0(Atoi(fmt, i)), next := RunEnd(fmt, i))
      else if At(fmt, i) == '*' then s.(precision := AtLeast0(Signed(WordAt(args, s.k))), next := i + 1, k := s.k + 1)
      else s.(precision := 0, next := i)
  }

  function AtLeast0(x: int): int { if x < 0 then 0 else x }

  function ReadQualifier(fmt: string, s: Spec): (r: Spec)
    requires s.next <= |fmt|
    ensures s.next <= r.next <= |fmt|
  {
    if At(fmt, s.next) == 'h' || At(fmt, s.next) == 'l' then s.(qualifier := At(fmt, s.next), next := s.next + 1) else s
  }

  function ReadSpec(fmt: string, i: nat, args: seq<Arg>, k: nat): (r: Spec)
    requires i <= |fmt|
    ensures i <= r.next <= |fmt|
  {
    ReadQualifier(fmt, ReadPrecision(fmt, args,
      ReadWidth(fmt, FlagsEnd(fmt, i), args, k, ReadFlags(fmt, i, NoFlags))))
  }

  // ---------- what a conversion writes ----------

  function CharText(c: char, width: int, left: bool): string {
    if left then [c] + Rep(' ', width - 1) else Rep(' ', width - 1) + [c]
  }

  /** The field width also limits how much of a string is shown. */
  function TextLength(s: string, width: int, precision: int): (r: nat)
    ensures r <= |s|
  {
    var len := if 0 <= width <= |s| then width else |s|;
    if 0 < precision < len then precision else len
  }

  function StringText(s: string, width: int, precision: int, left: bool): string {
    var len := TextLength(s, width, precision);
    if left then s[..len] + Rep(' ', width - len) else Rep(' ', width - len) + s[..len]
  }

  function Base(c: char): nat { if c == 'b' then 2 else if c == 'o' then 8 else if c == 'x' || c == 'X' then 16 else 10 }

  predicate IsInteger(c: char) { c in {'b', 'o', 'x', 'X', 'd', 'i', 'u'} }

  function IntegerFlags(c: char, f: Flags): Flags {
    f.(large := f.large || c == 'X', sign := f.sign || c == 'd' || c == 'i')
  }

  /** The number passed on to print_number: a short is cut to 16 bits and extended again if it is signed. */
  function Operand(v: nat, qualifier: char, sign: bool): (r: nat)
    requires v < WORD
    ensures r < WORD
  {
    if qualifier != 'h' then v
    else if sign && v % 0x1_0000 >= 0x8000 then v % 0x1_0000 + 0xFFFF_0000
    else v % 0x1_0000
  }

  function PointerSpec(s: Spec): Spec {
    if s.width == -1 then s.(width := 10, flags := s.flags.(special := true, zeroPad := true)) else s
  }

  function PointerText(v: nat, s: Spec): string
    requires v < WORD
  {
    PrintedNumber(v, 16, s.qualifier, s.width, s.precision, s.flags)
  }

  function IntegerText(v: nat, base: nat, f: Flags, s: Spec): string
    requires v < WORD && 2 <= base <= 16
  {
    PrintedNumber(Operand(v, s.qualifier, f.sign), base, s.qualifier, s.width, s.precision, f)
  }

  /** The text of one conversion. */
  function SpecText(c: char, args: seq<Arg>, s: Spec): string {
    if c == 'c' then CharText((WordAt(args, s.k) % 256) as char, s.width, s.flags.left)
    else if c == 's' then StringText(TextAt(args, s.k), s.width, s.precision, s.flags.left)
    else if c == 'p' then PointerText(WordAt(args, s.k), PointerSpec(s))
    else if c == '%' then "%"
    else if IsInteger(c) then IntegerText(WordAt(args, s.k), Base(c), IntegerFlags(c, s.flags), s)
    else if c == '\0' then "%"
    else ['%', c]
  }

  /** Arguments used once the conversion is done. */
  function ArgsAfter(c: char, s: Spec): nat {
    if c == 'c' || c == 's' || c == 'p' || IsInteger(c) then s.k + 1 else s.k
  }

  /** Where the format goes on. */
  function After(c: char, s: Spec): nat { if c == '\0' then s.next else s.next + 1 }

  /** The whole output for the format from i on, with the arguments from k on. */
  function Format(fmt: string, i: nat, args: seq<Arg>, k: nat): string
    requires i <= |fmt|
    decreases |fmt| - i
  {
    if At(fmt, i) == '\0' then []
    else if fmt[i] != '%' then [fmt[i]] + Format(fmt, i + 1, args, k)
    else
      var s := ReadSpec(fmt, i + 1, args, k);
      var c := At(fmt, s.next);
      SpecText(c, args, s) + Format(fmt, After(c, s), args, ArgsAfter(c, s))
  }

  /**
   What %s shows: the longest prefix of the string that neither a field width nor a positive
   precision is shorter than, padded to the width on one side.
   */
  lemma StringShown(s: string, width: int, precision: int, left: bool)
    ensures var n := TextLength(s, width, precision);
      var pad := Rep(' ', width - n);
      && (0 <= width ==> n <= width) && (0 < precision ==> n <= precision)
      && (n == |s| || n == width || n == precision)
      && StringText(s, width, precision, left) == (if left then s[..n] + pad else pad + s[..n])
      && |StringText(s, width, precision, left)| == (if n < width then width else n)
  {
  }

  /** The whole string is shown exactly when neither the field width nor the precision is shorter. */
  lemma ShownWhole(s: string, width: int, precision: int, left: bool)
    ensures TextLength(s, width, precision) == |s| <==> !(0 <= width < |s|) && !(0 < precision < |s|)
    ensures TextLength(s, width, precision) == |s| ==>
      StringText(s, width, precision, left) ==
        (if left then s + Rep(' ', width - |s|) else Rep(' ', width - |s|) + s)
  {
    StringShown(s, width, precision, left);
  }

  /** A field width of 3 cuts "abcde" to "abc". */
  lemma WidthCuts()
    ensures Format("%3s", 0, [Text(Some("abcde"))], 0) == "abc"
  {
    var fmt, args := "%3s", [Text(Some("abcde"))];
    WidthCutsSpec();
    assert CString("abcde") == "abcde" by { FiveChars(); }
    assert TextAt(args, 0) == "abcde";
    assert StringText("abcde", 3, -1, false) == "abc";
    assert Format(fmt, 3, args, 1) == [];
  }

  lemma WidthCutsSpec()
    ensures ReadSpec("%3s", 1, [Text(Some("abcde"))], 0) == Spec(NoFlags, 3, -1, '\0', 2, 0)
  {
    var fmt := "%3s";
    assert RunEnd(fmt, 1) == 2;
    assert fmt[1..2] == "3";
    assert Value("3", 10) == 3 by { ValueSnoc("", '3', 10); assert "" + ['3'] == "3"; }
  }

  lemma FiveChars()
    ensures CString("abcde") == "abcde"
  {
    assert "e"[1..] == "" && "de"[1..] == "e" && "cde"[1..] == "de" && "bcde"[1..] == "cde" && "abcde"[1..] == "bcde";
    assert CString("e") == "e";
    assert CString("de") == "de";
    assert CString("cde") == "cde";
    assert CString("bcde") == "bcde";
  }

  /** The 16-bit pattern of v read as a signed short. */
  function Short(v: nat): int {
    if v % 0x1_0000 < 0x8000 then v % 0x1_0000 else v % 0x1_0000 - 0x1_0000
  }

  /** Sign and magnitude of a signed conversion are those of the argument, as an int or as a short. */
  lemma SignMeaning(v: nat, qualifier: char, f: Flags)
    requires v < WORD && f.sign
    ensures var (mag, sign) := SignOf(Operand(v, qualifier, true), qualifier, f);
      var value := if qualifier == 'h' then Short(v) else Signed(v);
      && mag == (if value < 0 then -value else value)
      && (sign == '-' <==> value < 0)
      && (value >= 0 ==> sign == if f.plus then '+' else if f.space then ' ' else '\0')
  {
  }

  /** What %d shows of an int: a minus sign if negative, and the digits of its magnitude. */
  lemma PlainDecimal(n: int)
    requires -0x8000_0000 <= n < 0x8000_0000
    ensures Format("%d", 0, [Word(n % WORD)], 0)
         == (if n < 0 then "-" else "") + Digits(if n < 0 then -n else n, 10, false)
  {
    var args := [Word(n % WORD)];
    var s := ReadSpec("%d", 1, args, 0);
    assert s == Spec(NoFlags, -1, -1, '\0', 1, 0);
    assert WordAt(args, 0) == n % WORD;
    assert Format("%d", 2, args, 1) == [];
    PlainSigned(n);
  }

  lemma PlainSigned(n: int)
    requires -0x8000_0000 <= n < 0x8000_0000
    ensures PrintedNumber(n % WORD, 10, '\0', -1, -1, NoFlags.(sign := true))
         == (if n < 0 then "-" else "") + Digits(if n < 0 then -n else n, 10, false)
  {
    var f := NoFlags.(sign := true);
    assert f.(zeroPad := f.zeroPad && !f.left) == f;
    var mag, sign := if n < 0 then -n else n, if n < 0 then '-' else '\0';
    assert SignOf(n % WORD, '\0', f) == (mag, sign);
    FieldPlain(f, sign, Digits(mag, 10, false));
  }

  lemma FieldPlain(f: Flags, sign: char, digits: string)
    requires f == NoFlags.(sign := true) && digits != []
    ensures Field(f, 10, sign, digits, -1, -1) == SignText(sign) + digits
  {
    var room := -1 - |digits|;
    assert BlankText(f, sign, room) == "" && FillText(f, sign, room) == "" && Prefix(10, f) == "";
    assert BackText(digits, |digits|, -1, EndRoom(f, sign, room)) == digits;
  }

  // ---------- the buffer ----------

  /** b0 after the characters of full have been written one by one, those beyond size being dropped. */
  ghost function Written(b0: seq<char>, size: nat, full: string): (r: seq<char>)
    ensures |r| == |b0|
  {
    if full == [] then b0
    else
      var n := |full| - 1;
      var r := Written(b0, size, full[..n]);
      if n < size && n < |r| then r[n := full[n]] else r
  }

  /** The first size characters of full are there, and nothing else has changed. */
  lemma {:induction false} WrittenAt(b0: seq<char>, size: nat, full: string, i: nat)
    requires i < |b0|
    ensures Written(b0, size, full)[i] == if i < size && i < |full| then full[i] else b0[i]
  {
    if full != [] { WrittenAt(b0, size, full[..|full| - 1], i); }
  }

  lemma WrittenOne(b0: seq<char>, size: nat, full: string, c: char)
    ensures var r := Written(b0, size, full);
      Written(b0, size, full + [c]) == if |full| < size && |full| < |r| then r[|full| := c] else r
  {
    assert (full + [c])[..|full|] == full;
  }

  /** if (str < end) *str = c; ++str; */
  method Put(buf: array<char>, size: nat, str: nat, c: char, ghost b0: seq<char>, ghost full: string) returns (r: nat)
    requires size <= buf.Length && str == |full| && buf[..] == Written(b0, size, full)
    modifies buf
    ensures r == str + 1 && buf[..] == Written(b0, size, full + [c])
  {
    WrittenOne(b0, size, full, c);
    if str < size { buf[str] := c; }
    r := str + 1;
  }

  lemma RepNext(s: string, c: char, k: nat)
    ensures s + Rep(c, k) + [c] == s + Rep(c, k + 1)
  {
    assert Rep(c, k + 1) == Rep(c, k) + [c];
  }

  /** while (n-- > 0) of one character. */
  method Pad(buf: array<char>, size: nat, start: nat, n: int, c: char, ghost b0: seq<char>, ghost full: string) returns (str: nat)
    requires size <= buf.Length && start == |full| && buf[..] == Written(b0, size, full)
    modifies buf
    ensures buf[..] == Written(b0, size, full + Rep(c, n)) && str == |full + Rep(c, n)|
  {
    str := start;
    var k := 0;
    assert full + Rep(c, 0) == full;
    while k < n
      invariant 0 <= k && (k <= n || k == 0)
      invariant buf[..] == Written(b0, size, full + Rep(c, k)) && str == |full + Rep(c, k)|
    {
      str := Put(buf, size, str, c, b0, full + Rep(c, k));
      RepNext(full, c, k);
      k := k + 1;
    }
    assert Rep(c, k) == Rep(c, n);
  }

  /** Copy a string. */
  method PutText(buf: array<char>, size: nat, start: nat, s: string, ghost b0: seq<char>, ghost full: string) returns (str: nat)
    requires size <= buf.Length && start == |full| && buf[..] == Written(b0, size, full)
    modifies buf
    ensures buf[..] == Written(b0, size, full + s) && str == |full + s|
  {
    str := start;
    assert full + s[..0] == full;
    for i := 0 to |s|
      invariant buf[..] == Written(b0, size, full + s[..i]) && str == |full + s[..i]|
    {
      str := Put(buf, size, str, s[i], b0, full + s[..i]);
      assert full + s[..i] + [s[i]] == full + s[..i + 1];
    }
    assert s[..|s|] == s;
  }

  /** What the digit loop of print_number writes: least significant digit first, nothing for 0. */
  function LowFirst(n: nat, base: nat, large: bool): string
    requires 2 <= base <= 16
    decreases n
  {
    if n == 0 then []
    else
      HalfBelow(n, base);
      [Digit(n % base, large)] + LowFirst(n / base, base, large)
  }

  lemma {:induction false} LowFirstReverses(n: nat, base: nat, large: bool)
    requires 2 <= base <= 16 && n > 0
    ensures LowFirst(n, base, large) == Reversed(Digits(n, base, large))
    decreases n
  {
    ReversedDigits(n, base, large);
    var q := LowFirstStep(n, base, large);
    if q > 0 { LowFirstReverses(q, base, large); } else { assert LowFirst(q, base, large) == []; }
  }

  lemma LowFirstStep(n: nat, base: nat, large: bool) returns (q: nat)
    requires 2 <= base <= 16 && n > 0
    ensures q == n / base < n && LowFirst(n, base, large) == [Digit(n % base, large)] + LowFirst(q, base, large)
  {
    HalfBelow(n, base);
    q := n / base;
  }

  /** divide */
  method Divide(n: nat, base: nat, ghost large: bool) returns (d: nat, q: nat)
    requires 2 <= base <= 16 && n > 0
    ensures q < n && d < 16 && d == n % base && q == n / base
    ensures LowFirst(n, base, large) == [Digit(d, large)] + LowFirst(q, base, large)
  {
    HalfBelow(n, base);
    d, q := n % base, n / base;
  }

  /** A look-up in small_digits or large_digits. */
  method DigitChar(d: nat, large: bool) returns (c: char)
    requires d < 16
    ensures c == Digit(d, large)
  {
    DigitTables(d);
    c := if large then "0123456789ABCDEF"[d] else "0123456789abcdef"[d];
  }

  lemma AppendFirst(a: string, c: char, b: string)
    ensures a + ([c] + b) == a + [c] + b
  {
  }

  /** The loop that fills tmp, which never overflows. */
  method FillDigits(num: nat, base: nat, large: bool, tmp: array<char>) returns (i: nat)
    requires 0 < num < WORD && 2 <= base <= 16 && |LowFirst(num, base, large)| <= tmp.Length
    modifies tmp
    ensures i == |LowFirst(num, base, large)| && tmp[..i] == LowFirst(num, base, large)
  {
    i := 0;
    var n: nat := num;
    while n != 0
      invariant 0 <= i && i + |LowFirst(n, base, large)| == |LowFirst(num, base, large)|
      invariant tmp[..i] + LowFirst(n, base, large) == LowFirst(num, base, large)
      decreases n
    {
      var d, q := Divide(n, base, large);
      ghost var before := tmp[..i];
      var c := DigitChar(d, large);
      tmp[i] := c;
      assert tmp[..i + 1] == before + [Digit(d, large)];
      AppendFirst(before, Digit(d, large), LowFirst(q, base, large));
      n := q;
      i := i + 1;
    }
  }

  method GetDigits(num: nat, base: nat, large: bool, tmp: array<char>) returns (i: nat)
    requires num < WORD && 2 <= base <= 16 && tmp.Length == 32
    modifies tmp
    ensures i == |Digits(num, base, large)| <= 32
    ensures Reversed(tmp[..i]) == Digits(num, base, large)
  {
    WordSize();
    DigitsFit(num, base, large, 32);
    ReversedTwice(Digits(num, base, large));
    if num == 0 {
      tmp[0] := '0';
      assert tmp[..1] == ['0'] == Digits(0, base, large);
      return 1;
    }
    LowFirstReverses(num, base, large);
    assert |LowFirst(num, base, large)| == |Digits(num, base, large)|;
    i := FillDigits(num, base, large, tmp);
  }

  lemma ReversedSnoc(s: string, c: char)
    ensures Reversed(s + [c]) == [c] + Reversed(s)
  {
  }

  lemma DivCases(n: nat, base: nat)
    requires base >= 2
    ensures if n < base then n / base == 0 && n % base == n else n / base > 0
  {
    DivMod(n, base);
  }

  /** The least significant digit comes first in tmp. */
  lemma ReversedDigits(n: nat, base: nat, large: bool)
    requires 2 <= base <= 16 && n > 0
    ensures Reversed(Digits(n, base, large)) ==
      [Digit(n % base, large)] + (if n / base > 0 then Reversed(Digits(n / base, base, large)) else [])
    ensures |Digits(n, base, large)| == 1 + (if n / base > 0 then |Digits(n / base, base, large)| else 0)
  {
    DivCases(n, base);
    if n >= base { ReversedSnoc(Digits(n / base, base, large), Digit(n % base, large)); }
  }

  /** tmp is written out from its end. */
  method PutReversed(buf: array<char>, size: nat, start: nat, tmp: array<char>, count: nat, ghost b0: seq<char>, ghost full: string)
    returns (str: nat)
    requires buf != tmp && count <= tmp.Length
    requires size <= buf.Length && start == |full| && buf[..] == Written(b0, size, full)
    modifies buf
    ensures buf[..] == Written(b0, size, full + Reversed(tmp[..count])) && str == |full + Reversed(tmp[..count])|
  {
    str := start;
    var i := count;
    ghost var out := Reversed(tmp[..count]);
    assert full + out[..0] == full;
    while i > 0
      invariant 0 <= i <= count && out == Reversed(tmp[..count])
      invariant buf[..] == Written(b0, size, full + out[..count - i]) && str == |full + out[..count - i]|
    {
      i := i - 1;
      ghost var k := count - i - 1;
      assert out[k] == tmp[i];
      str := Put(buf, size, str, tmp[i], b0, full + out[..k]);
      assert full + out[..k] + [out[k]] == full + out[..k + 1];
    }
    assert out[..count] == out;
  }

  lemma ReversedTwice(s: string)
    ensures Reversed(Reversed(s)) == s
  {
  }

  lemma Assoc(a: string, b: string, c: string)
    ensures a + b + c == a + (b + c)
  {
  }

  /** The prefix of the # flag. */
  method PutPrefix(buf: array<char>, size: nat, start: nat, base: nat, f: Flags, ghost b0: seq<char>, ghost full: string)
    returns (str: nat)
    requires size <= buf.Length && start == |full| && buf[..] == Written(b0, size, full)
    modifies buf
    ensures buf[..] == Written(b0, size, full + Prefix(base, f)) && str == |full + Prefix(base, f)|
  {
    str := start;
    assert full + "" == full;
    if f.special {
      if base == 2 || base == 16 {
        var c := if base == 2 then 'b' else if f.large then 'X' else 'x';
        str := Put(buf, size, str, '0', b0, full);
        str := Put(buf, size, str, c, b0, full + ['0']);
        assert full + ['0'] + [c] == full + ['0', c];
      } else if base == 8 {
        str := Put(buf, size, str, '0', b0, full);
      }
    }
  }

  /** Blanks, sign, prefix and filling. */
  method PutFront(buf: array<char>, size: nat, start: nat, f: Flags, base: nat, sign: char, room: int,
                  ghost b0: seq<char>, ghost full: string) returns (str: nat, left: int)
    requires size <= buf.Length && start == |full| && buf[..] == Written(b0, size, full)
    modifies buf
    ensures buf[..] == Written(b0, size, full + FrontText(f, base, sign, room)) && str == |full + FrontText(f, base, sign, room)|
    ensures left == EndRoom(f, sign, room)
  {
    ghost var t1, t2 := BlankText(f, sign, room), SignText(sign);
    ghost var t3, t4 := Prefix(base, f), FillText(f, sign, room);
    str, left := start, room;
    if !f.zeroPad && !f.left {
      if sign != '\0' && left > 0 { left := left - 1; }
      str := Pad(buf, size, str, left, ' ', b0, full);
      left := RunOut(left);
    } else {
      assert full + t1 == full;
    }
    if sign != '\0' {
      str := Put(buf, size, str, sign, b0, full + t1);
      left := left - 1;
    } else {
      assert full + t1 + t2 == full + t1;
    }
    str := PutPrefix(buf, size, str, base, f, b0, full + t1 + t2);
    if !f.left {
      str := Pad(buf, size, str, left, if f.zeroPad then '0' else ' ', b0, full + t1 + t2 + t3);
      left := RunOut(left);
    } else {
      assert full + t1 + t2 + t3 + t4 == full + t1 + t2 + t3;
    }
    Assoc(full, t1, t2);
    Assoc(full + (t1 + t2), t3, t4);
    Assoc(full, t1 + t2, t3 + t4);
  }

  /** Leading zeros, digits and trailing blanks. */
  method PutBack(buf: array<char>, size: nat, start: nat, tmp: array<char>, i: nat, places: int, precision: int, room: int,
                 ghost b0: seq<char>, ghost full: string, ghost digits: string) returns (str: nat)
    requires buf != tmp && i <= tmp.Length && digits == Reversed(tmp[..i])
    requires size <= buf.Length && start == |full| && buf[..] == Written(b0, size, full)
    modifies buf
    ensures buf[..] == Written(b0, size, full + BackText(digits, places, precision, room))
    ensures str == |full + BackText(digits, places, precision, room)|
  {
    ghost var t1, t2 := Rep('0', places - i), if precision != 0 then digits else "";
    str := Pad(buf, size, start, places - i, '0', b0, full);
    if precision != 0 {
      str := PutReversed(buf, size, str, tmp, i, b0, full + t1);
    } else {
      assert full + t1 + t2 == full + t1;
    }
    str := Pad(buf, size, str, room, ' ', b0, full + t1 + t2);
    Assoc(full, t1, t2);
    Assoc(full, t1 + t2, Rep(' ', room));
  }

  /** The digits in tmp with their sign, laid out in a field. */
  method PutField(buf: array<char>, size: nat, start: nat, f: Flags, base: nat, sign: char, tmp: array<char>, i: nat,
                  width: int, precision: int, ghost b0: seq<char>, ghost full: string, ghost digits: string) returns (str: nat)
    requires buf != tmp && i <= tmp.Length && digits == Reversed(tmp[..i])
    requires size <= buf.Length && start == |full| && buf[..] == Written(b0, size, full)
    modifies buf
    ensures buf[..] == Written(b0, size, full + Field(f, base, sign, digits, width, precision))
    ensures str == |full + Field(f, base, sign, digits, width, precision)|
  {
    var places := if i > precision then i else precision;
    var room := width;
    if f.special {
      if base == 2 || base == 16 { room := room - 2; } else if base == 8 { room := room - 1; }
    }
    room := room - places;
    var left;
    str, left := PutFront(buf, size, start, f, base, sign, room, b0, full);
    FieldSplit(full, f, base, sign, digits, width, precision, places, room);
    str := PutBack(buf, size, str, tmp, i, places, precision, left, b0, full + FrontText(f, base, sign, room), digits);
  }

  lemma FieldSplit(full: string, f: Flags, base: nat, sign: char, digits: string, width: int, precision: int,
                   places: int, room: int)
    requires places == if |digits| > precision then |digits| else precision
    requires room == width - |Prefix(base, f)| - places
    ensures full + FrontText(f, base, sign, room) + BackText(digits, places, precision, EndRoom(f, sign, room))
         == full + Field(f, base, sign, digits, width, precision)
  {
    Assoc(full, FrontText(f, base, sign, room), BackText(digits, places, precision, EndRoom(f, sign, room)));
  }

  /** print_number: the unlimited text, as far as the buffer goes. */
  method PrintNumber(buf: array<char>, size: nat, start: nat, num: nat, base: nat, qualifier: char,
                     width: int, precision: int, flags: Flags, ghost b0: seq<char>, ghost full: string) returns (str: nat)
    requires num < WORD && 2 <= base <= 16
    requires size <= buf.Length && start == |full| && buf[..] == Written(b0, size, full)
    modifies buf
    ensures buf[..] == Written(b0, size, full + PrintedNumber(num, base, qualifier, width, precision, flags))
    ensures str == |full + PrintedNumber(num, base, qualifier, width, precision, flags)|
  {
    var f := flags.(zeroPad := flags.zeroPad && !flags.left);
    var (mag, sign) := SignOf(num, qualifier, f);
    var tmp := new char[32];
    var i := GetDigits(mag, base, f.large, tmp);
    str := PutField(buf, size, start, f, base, sign, tmp, i, width, precision, b0, full, Digits(mag, base, f.large));
  }

  // ---------- rt_vsnprintf ----------

  /** The flag loop. */
  method ParseFlags(fmt: string, start: nat) returns (f: Flags, i: nat)
    requires start <= |fmt|
    ensures f == ReadFlags(fmt, start, NoFlags) && i == FlagsEnd(fmt, start)
  {
    f, i := NoFlags, start;
    while IsFlag(At(fmt, i))
      invariant start <= i <= |fmt| && FlagsEnd(fmt, i) == FlagsEnd(fmt, start)
      invariant ReadFlags(fmt, i, f) == ReadFlags(fmt, start, NoFlags)
      decreases |fmt| - i
    {
      if fmt[i] == '-' {
        f := f.(left := true);
      } else if fmt[i] == '+' {
        f := f.(plus := true);
      } else if fmt[i] == ' ' {
        f := f.(space := true);
      } else if fmt[i] == '#' {
        f := f.(special := true);
      } else {
        f := f.(zeroPad := true);
      }
      i := i + 1;
    }
  }

  method ParseWidth(fmt: string, i: nat, args: seq<Arg>, k: nat, f: Flags) returns (s: Spec)
    requires i <= |fmt|
    ensures s == ReadWidth(fmt, i, args, k, f)
  {
    s := Spec(f, -1, -1, '\0', i, k);
    if IsDigit(At(fmt, i)) {
      var w, next := SkipAtoi(fmt, i);
      s := s.(width := w, next := next);
    } else if At(fmt, i) == '*' {
      var w := Signed(WordAt(args, k));
      s := s.(width := w, next := i + 1, k := k + 1);
      if w < 0 { s := s.(width := Signed(-w), flags := f.(left := true)); }
    }
  }

  method ParsePrecision(fmt: string, args: seq<Arg>, s: Spec) returns (r: Spec)
    requires s.next <= |fmt|
    ensures r == ReadPrecision(fmt, args, s)
  {
    r := s;
    if At(fmt, r.next) == '.' {
      var p := -1;
      var next := r.next + 1;
      if IsDigit(At(fmt, next)) {
        p, next := SkipAtoi(fmt, next);
      } else if At(fmt, next) == '*' {
        p := Signed(WordAt(args, r.k));
        next := next + 1;
        r := r.(k := r.k + 1);
      }
      r := r.(precision := if p < 0 then 0 else p, next := next);
    }
  }

  /** Flags, width, precision and qualifier of a conversion whose '%' is just before start. */
  method ParseSpec(fmt: string, start: nat, args: seq<Arg>, k: nat) returns (s: Spec)
    requires start <= |fmt|
    ensures s == ReadSpec(fmt, start, args, k)
  {
    var f, i := ParseFlags(fmt, start);
    s := ParseWidth(fmt, i, args, k, f);
    s := ParsePrecision(fmt, args, s);
    if At(fmt, s.next) == 'h' || At(fmt, s.next) == 'l' {
      s := s.(qualifier := At(fmt, s.next), next := s.next + 1);
    }
  }

  /** case 'c' */
  method PutChar(buf: array<char>, size: nat, start: nat, c: char, width: int, left: bool,
                 ghost b0: seq<char>, ghost full: string) returns (str: nat)
    requires size <= buf.Length && start == |full| && buf[..] == Written(b0, size, full)
    modifies buf
    ensures buf[..] == Written(b0, size, full + CharText(c, width, left)) && str == |full + CharText(c, width, left)|
  {
    str := start;
    if left {
      str := Put(buf, size, str, c, b0, full);
      str := Pad(buf, size, str, width - 1, ' ', b0, full + [c]);
      Assoc(full, [c], Rep(' ', width - 1));
    } else {
      str := Pad(buf, size, str, width - 1, ' ', b0, full);
      str := Put(buf, size, str, c, b0, full + Rep(' ', width - 1));
      Assoc(full, Rep(' ', width - 1), [c]);
    }
  }

  /** case 's' */
  method PutString(buf: array<char>, size: nat, start: nat, s: string, width: int, precision: int, left: bool,
                   ghost b0: seq<char>, ghost full: string) returns (str: nat)
    requires size <= buf.Length && start == |full| && buf[..] == Written(b0, size, full)
    modifies buf
    ensures buf[..] == Written(b0, size, full + StringText(s, width, precision, left))
    ensures str == |full + StringText(s, width, precision, left)|
  {
    var len := 0;
    while len != width && len < |s|
      invariant 0 <= len <= |s| && (0 <= width <= |s| ==> len <= width)
      decreases |s| - len
    {
      len := len + 1;
    }
    if precision > 0 && len > precision { len := precision; }
    assert len == TextLength(s, width, precision);
    ghost var pad := Rep(' ', width - len);
    str := start;
    if left {
      str := PutText(buf, size, str, s[..len], b0, full);
      str := Pad(buf, size, str, width - len, ' ', b0, full + s[..len]);
      Assoc(full, s[..len], pad);
    } else {
      str := Pad(buf, size, str, width - len, ' ', b0, full);
      str := PutText(buf, size, str, s[..len], b0, full + pad);
      Assoc(full, pad, s[..len]);
    }
  }

  method PutPointer(buf: array<char>, size: nat, start: nat, v: nat, s: Spec,
                    ghost b0: seq<char>, ghost full: string) returns (str: nat)
    requires v < WORD && size <= buf.Length && start == |full| && buf[..] == Written(b0, size, full)
    modifies buf
    ensures buf[..] == Written(b0, size, full + PointerText(v, s)) && str == |full + PointerText(v, s)|
  {
    str := PrintNumber(buf, size, start, v, 16, s.qualifier, s.width, s.precision, s.flags, b0, full);
  }

  /** The number a qualifier makes of an argument. */
  method GetOperand(v: nat, qualifier: char, sign: bool) returns (num: nat)
    requires v < WORD
    ensures num == Operand(v, qualifier, sign)
  {
    num := v;
    if qualifier == 'h' {
      num := v % 0x1_0000;
      if sign && num >= 0x8000 { num := WORD - (0x1_0000 - num); }
    }
  }

  method PutInteger(buf: array<char>, size: nat, start: nat, v: nat, base: nat, f: Flags, s: Spec,
                    ghost b0: seq<char>, ghost full: string) returns (str: nat)
    requires v < WORD && 2 <= base <= 16
    requires size <= buf.Length && start == |full| && buf[..] == Written(b0, size, full)
    modifies buf
    ensures buf[..] == Written(b0, size, full + IntegerText(v, base, f, s)) && str == |full + IntegerText(v, base, f, s)|
  {
    var num := GetOperand(v, s.qualifier, f.sign);
    str := PrintNumber(buf, size, start, num, base, s.qualifier, s.width, s.precision, f, b0, full);
  }

  /** Base and flags of the integer conversions, with their fall-throughs. */
  method IntegerBase(c: char, flags: Flags) returns (base: nat, f: Flags)
    requires IsInteger(c)
    ensures base == Base(c) && f == IntegerFlags(c, flags)
  {
    base, f := 10, flags;
    if c == 'b' {
      base := 2;
    } else if c == 'o' {
      base := 8;
    } else if c == 'X' || c == 'x' {
      if c == 'X' { f := f.(large := true); }
      base := 16;
    } else if c == 'd' || c == 'i' {
      f := f.(sign := true);
    }
  }

  /** The switch over the conversion character. */
  method PutSpec(buf: array<char>, size: nat, start: nat, c: char, args: seq<Arg>, s: Spec,
                 ghost b0: seq<char>, ghost full: string) returns (str: nat)
    requires size <= buf.Length && start == |full| && buf[..] == Written(b0, size, full)
    modifies buf
    ensures buf[..] == Written(b0, size, full + SpecText(c, args, s)) && str == |full + SpecText(c, args, s)|
  {
    if c == 'c' {
      str := PutChar(buf, size, start, (WordAt(args, s.k) % 256) as char, s.width, s.flags.left, b0, full);
    } else if c == 's' {
      str := PutString(buf, size, start, TextAt(args, s.k), s.width, s.precision, s.flags.left, b0, full);
    } else if c == 'p' {
      var p := s;
      if s.width == -1 { p := s.(width := 8 + 2, flags := s.flags.(special := true, zeroPad := true)); }
      str := PutPointer(buf, size, start, WordAt(args, s.k), p, b0, full);
    } else if IsInteger(c) {
      var base, f := IntegerBase(c, s.flags);
      str := PutInteger(buf, size, start, WordAt(args, s.k), base, f, s, b0, full);
    } else {
      str := Put(buf, size, start, '%', b0, full);
      if c != '%' && c != '\0' {
        str := Put(buf, size, str, c, b0, full + ['%']);
        Assoc(full, ['%'], [c]);
        assert ['%'] + [c] == ['%', c];
      }
    }
  }

  /** The loop over the format. */
  method PutFormat(buf: array<char>, size: nat, fmt: string, args: seq<Arg>, ghost b0: seq<char>) returns (str: nat)
    requires size <= buf.Length && buf[..] == b0
    modifies buf
    ensures buf[..] == Written(b0, size, Format(fmt, 0, args, 0)) && str == |Format(fmt, 0, args, 0)|
  {
    str := 0;
    var i, k := 0, 0;
    ghost var full := "";
    assert full + Format(fmt, 0, args, 0) == Format(fmt, 0, args, 0);
    while At(fmt, i) != '\0'
      invariant i <= |fmt| && str == |full| && buf[..] == Written(b0, size, full)
      invariant full + Format(fmt, i, args, k) == Format(fmt, 0, args, 0)
      decreases |fmt| - i
    {
      if fmt[i] != '%' {
        Assoc(full, [fmt[i]], Format(fmt, i + 1, args, k));
        str := Put(buf, size, str, fmt[i], b0, full);
        full := full + [fmt[i]];
        i := i + 1;
      } else {
        var s := ParseSpec(fmt, i + 1, args, k);
        var c := At(fmt, s.next);
        Assoc(full, SpecText(c, args, s), Format(fmt, After(c, s), args, ArgsAfter(c, s)));
        str := PutSpec(buf, size, str, c, args, s, b0, full);
        full := full + SpecText(c, args, s);
        i := After(c, s);
        k := ArgsAfter(c, s);
      }
    }
    assert full + [] == full;
  }

  /**
   For every format, arguments and buffer: the result is the length of the unlimited output,
   the buffer holds as much of it as fits before a NUL, and nothing else is written.
   */
  method VsnPrintf(buf: array<char>, size: nat, fmt: string, args: seq<Arg>) returns (n: nat)
    requires size <= buf.Length
    modifies buf
    ensures n == |Format(fmt, 0, args, 0)|
    ensures size > 0 ==>
      var shown := if n < size then n else size - 1;
      && buf[..shown] == Format(fmt, 0, args, 0)[..shown] && buf[shown] == '\0'
      && forall j :: shown < j < buf.Length ==> buf[j] == old(buf[j])
    ensures size == 0 ==> buf[..] == old(buf[..])
    ensures forall j :: size <= j < buf.Length ==> buf[j] == old(buf[j])
  {
    ghost var b0, full := buf[..], Format(fmt, 0, args, 0);
    n := PutFormat(buf, size, fmt, args, b0);
    forall j | 0 <= j < buf.Length ensures buf[j] == if j < size && j < |full| then full[j] else b0[j] {
      WrittenAt(b0, size, full, j);
    }
    if size > 0 {
      if n < size { buf[n] := '\0'; } else { buf[size - 1] := '\0'; }
    }
  }
}
