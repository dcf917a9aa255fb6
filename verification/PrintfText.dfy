/** What each conversion of rt_vsnprintf prints: digits that denote the number, in a field laid out as asked. */
module PrintfText {
  import opened Wrappers
  import opened NumberText
  import opened NumberLayout
  import opened Printf

  // ---------- a conversion, as it is written in a format ----------

  /** A field width or precision: none, a number, or '*' for the next argument. */
  datatype Measure = Absent | Given(n: nat) | Asked

  function MeasureText(m: Measure): string {
    match m
    case Absent => ""
    case Given(n) => Digits(n, 10, false)
    case Asked => "*"
  }

  function PrecisionText(p: Measure): string { if p.Absent? then "" else "." + MeasureText(p) }

  function Conversion(fl: string, w: Measure, p: Measure, q: string, c: char): string {
    "%" + (fl + (MeasureText(w) + (PrecisionText(p) + (q + [c]))))
  }

  ghost predicate AllFlags(fl: string) { forall k :: 0 <= k < |fl| ==> fl[k] in {'-', '+', ' ', '#', '0'} }

  /** Flags, a width that does not begin with the flag '0', a precision, 'h', 'l' or neither, a conversion character. */
  ghost predicate WellFormed(fl: string, w: Measure, p: Measure, q: string, c: char) {
    && AllFlags(fl)
    && (w.Given? ==> 1 <= w.n < 0x8000_0000) && (p.Given? ==> p.n < 0x8000_0000)
    && (q == "" || q == "h" || q == "l")
    && c in {'d', 'i', 'u', 'x', 'X', 'o', 'b', 'c', 's', 'p', '%'}
  }

  ghost predicate StandsAt(fmt: string, i: nat, s: string) { i + |s| <= |fmt| && fmt[i..i + |s|] == s }

  lemma StandsParts(fmt: string, i: nat, a: string, b: string)
    requires StandsAt(fmt, i, a + b)
    ensures StandsAt(fmt, i, a) && StandsAt(fmt, i + |a|, b)
  {
    var s := fmt[i..i + |a + b|];
    assert s[..|a|] == a && s[|a|..] == b;
  }

  lemma StandsFirst(fmt: string, i: nat, s: string)
    requires StandsAt(fmt, i, s) && s != []
    ensures At(fmt, i) == s[0] && StandsAt(fmt, i + 1, s[1..])
  {
    assert s == s[..1] + s[1..];
    StandsParts(fmt, i, s[..1], s[1..]);
    assert fmt[i] == fmt[i..i + 1][0];
  }

  // ---------- reading it back ----------

  function FlagsOf(fl: string, f: Flags): Flags { if fl == [] then f else FlagsOf(fl[1..], AddFlag(f, fl[0])) }

  lemma {:induction false} FlagsRead(fmt: string, i: nat, fl: string, f: Flags)
    requires StandsAt(fmt, i, fl) && AllFlags(fl) && !IsFlag(At(fmt, i + |fl|))
    ensures FlagsEnd(fmt, i) == i + |fl| && ReadFlags(fmt, i, f) == FlagsOf(fl, f)
    decreases |fl|
  {
    if fl != [] {
      StandsFirst(fmt, i, fl);
      FlagsRead(fmt, i + 1, fl[1..], AddFlag(f, fl[0]));
    }
  }

  function FlagOf(f: Flags, x: char): bool {
    if x == '-' then f.left else if x == '+' then f.plus else if x == ' ' then f.space
    else if x == '#' then f.special else f.zeroPad
  }

  lemma FlagAdded(f: Flags, c: char, x: char)
    requires IsFlag(c) && IsFlag(x)
    ensures FlagOf(AddFlag(f, c), x) == (FlagOf(f, x) || x == c)
    ensures AddFlag(f, c).large == f.large && AddFlag(f, c).sign == f.sign
  {
  }

  /** A flag is set exactly if its character occurs. */
  lemma {:induction false} FlagOccurs(fl: string, f: Flags, x: char)
    requires AllFlags(fl) && IsFlag(x)
    ensures var g := FlagsOf(fl, f); FlagOf(g, x) == (FlagOf(f, x) || x in fl) && g.large == f.large && g.sign == f.sign
    decreases |fl|
  {
    if fl != [] {
      var c := fl[0];
      FlagAdded(f, c, x);
      FlagOccurs(fl[1..], AddFlag(f, c), x);
      InFirst(x, fl, c, fl[1..]);
    }
  }

  lemma InFirst(x: char, s: string, c: char, rest: string)
    requires s != [] && c == s[0] && rest == s[1..]
    ensures x in s <==> x == c || x in rest
  {
    assert s == [c] + rest;
  }

  lemma {:induction false} RunRead(fmt: string, i: nat, ds: string)
    requires StandsAt(fmt, i, ds) && (forall k :: 0 <= k < |ds| ==> IsDigit(ds[k])) && !IsDigit(At(fmt, i + |ds|))
    ensures RunEnd(fmt, i) == i + |ds|
    decreases |ds|
  {
    if ds != [] {
      StandsFirst(fmt, i, ds);
      RunRead(fmt, i + 1, ds[1..]);
    }
  }

  /** skip_atoi reads a number as it is written. */
  lemma NumberRead(fmt: string, i: nat, n: nat)
    requires StandsAt(fmt, i, Digits(n, 10, false)) && n < 0x8000_0000
    requires !IsDigit(At(fmt, i + |Digits(n, 10, false)|))
    ensures RunEnd(fmt, i) == i + |Digits(n, 10, false)| && Atoi(fmt, i) == n && IsDigit(At(fmt, i))
  {
    var ds := Digits(n, 10, false);
    DecimalDigits(n, false);
    DigitsDenote(n, 10, false);
    RunRead(fmt, i, ds);
    StandsFirst(fmt, i, ds);
  }

  /** What the code makes of a field width: a negative argument stands for '-' and its magnitude. */
  function WidthOf(w: Measure, args: seq<Arg>, k: nat): int {
    match w
    case Absent => -1
    case Given(n) => n
    case Asked => var a := Signed(WordAt(args, k)); if -0x8000_0000 < a < 0 then -a else a
  }

  predicate IsLeft(fl: string, w: Measure, args: seq<Arg>, k: nat) {
    '-' in fl || NegativeWidth(w, args, k)
  }

  predicate NegativeWidth(w: Measure, args: seq<Arg>, k: nat) { w.Asked? && Signed(WordAt(args, k)) < 0 }

  function PrecisionOf(p: Measure, args: seq<Arg>, k: nat): int {
    match p
    case Absent => -1
    case Given(n) => n
    case Asked => var a := Signed(WordAt(args, k)); if a < 0 then 0 else a
  }

  /** The argument behind those for width and precision. */
  function Behind(m: Measure, k: nat): nat { if m.Asked? then k + 1 else k }

  lemma WidthRead(fmt: string, i: nat, w: Measure, args: seq<Arg>, k: nat, f: Flags, end: nat) returns (s: Spec)
    requires i <= |fmt| && StandsAt(fmt, i, MeasureText(w)) && (w.Given? ==> w.n < 0x8000_0000)
    requires end == i + |MeasureText(w)| && !IsDigit(At(fmt, end)) && At(fmt, end) != '*'
    ensures s == ReadWidth(fmt, i, args, k, f)
    ensures s.flags == f.(left := f.left || NegativeWidth(w, args, k)) && s.width == WidthOf(w, args, k)
    ensures s.precision == -1 && s.qualifier == '\0' && s.next == end && s.k == Behind(w, k)
  {
    s := ReadWidth(fmt, i, args, k, f);
    if w.Given? { NumberRead(fmt, i, w.n); }
    if w.Asked? { StandsFirst(fmt, i, "*"); }
  }

  lemma PrecisionRead(fmt: string, p: Measure, args: seq<Arg>, s: Spec, end: nat) returns (r: Spec)
    requires s.next <= |fmt| && StandsAt(fmt, s.next, PrecisionText(p)) && (p.Given? ==> p.n < 0x8000_0000)
    requires end == s.next + |PrecisionText(p)| && !IsDigit(At(fmt, end)) && At(fmt, end) != '*' && At(fmt, end) != '.'
    requires s.precision == -1
    ensures r == ReadPrecision(fmt, args, s)
    ensures r.flags == s.flags && r.width == s.width && r.precision == PrecisionOf(p, args, s.k)
    ensures r.qualifier == s.qualifier && r.next == end && r.k == Behind(p, s.k)
  {
    if p.Absent? {
      r := s;
    } else {
      DotStands(fmt, s.next, p, end);
      r := DotRead(fmt, p, args, s, s.next + 1, end);
    }
  }

  lemma DotStands(fmt: string, j: nat, p: Measure, end: nat)
    requires !p.Absent? && StandsAt(fmt, j, PrecisionText(p)) && (p.Given? ==> p.n < 0x8000_0000)
    requires end == j + |PrecisionText(p)| && !IsDigit(At(fmt, end))
    ensures j < |fmt| && At(fmt, j) == '.'
    ensures p.Given? ==> RunEnd(fmt, j + 1) == end && Atoi(fmt, j + 1) == p.n && IsDigit(At(fmt, j + 1))
    ensures p.Asked? ==> At(fmt, j + 1) == '*' && end == j + 2
  {
    StandsParts(fmt, j, ".", MeasureText(p));
    StandsFirst(fmt, j, ".");
    if p.Given? { NumberRead(fmt, j + 1, p.n); } else { StandsFirst(fmt, j + 1, "*"); }
  }

  lemma DotRead(fmt: string, p: Measure, args: seq<Arg>, s: Spec, i: nat, end: nat) returns (r: Spec)
    requires !p.Absent? && s.next < |fmt| && i == s.next + 1 && At(fmt, s.next) == '.'
    requires p.Given? ==> RunEnd(fmt, i) == end && Atoi(fmt, i) == p.n && IsDigit(At(fmt, i))
    requires p.Asked? ==> At(fmt, i) == '*' && end == i + 1
    ensures r == ReadPrecision(fmt, args, s)
    ensures r == s.(precision := PrecisionOf(p, args, s.k), next := end, k := Behind(p, s.k))
  {
    r := ReadPrecision(fmt, args, s);
  }

  lemma QualifierRead(fmt: string, q: string, s: Spec, end: nat) returns (r: Spec)
    requires s.next <= |fmt| && StandsAt(fmt, s.next, q) && (q == "" || q == "h" || q == "l") && s.qualifier == '\0'
    requires end == s.next + |q| && At(fmt, end) != 'h' && At(fmt, end) != 'l'
    ensures r == ReadQualifier(fmt, s)
    ensures r.flags == s.flags && r.width == s.width && r.precision == s.precision
    ensures r.qualifier == Qualifier(q) && r.next == end && r.k == s.k
  {
    r := ReadQualifier(fmt, s);
    if q != "" { StandsFirst(fmt, s.next, q); }
  }

  function Qualifier(q: string): char { if q == "" then '\0' else q[0] }

  /** Where each part of a conversion stands. */
  lemma PartsStand(fmt: string, i: nat, fl: string, w: Measure, p: Measure, q: string, c: char)
    returns (a: nat, b: nat, d: nat, e: nat)
    requires StandsAt(fmt, i, Conversion(fl, w, p, q, c))
    ensures a == i + 1 + |fl| && b == a + |MeasureText(w)| && d == b + |PrecisionText(p)| && e == d + |q|
    ensures e + 1 == i + |Conversion(fl, w, p, q, c)| <= |fmt| && fmt[i] == '%' && fmt[e] == c
    ensures StandsAt(fmt, i + 1, fl) && StandsAt(fmt, a, MeasureText(w)) && StandsAt(fmt, b, PrecisionText(p)) && StandsAt(fmt, d, q)
  {
    var t4 := q + [c];
    var t3 := PrecisionText(p) + t4;
    var t2 := MeasureText(w) + t3;
    a, b, d, e := SixParts(fmt, i, fl, MeasureText(w), PrecisionText(p), q, [c], t2, t3, t4, fl + t2);
  }

  lemma SixParts(fmt: string, i: nat, s1: string, s2: string, s3: string, s4: string, s5: string,
                 t2: string, t3: string, t4: string, t1: string)
    returns (a: nat, b: nat, d: nat, e: nat)
    requires |s5| == 1 && t4 == s4 + s5 && t3 == s3 + t4 && t2 == s2 + t3 && t1 == s1 + t2
    requires StandsAt(fmt, i, "%" + t1)
    ensures a == i + 1 + |s1| && b == a + |s2| && d == b + |s3| && e == d + |s4|
    ensures e + 1 == i + 1 + |t1| <= |fmt| && fmt[i] == '%' && fmt[e] == s5[0]
    ensures StandsAt(fmt, i + 1, s1) && StandsAt(fmt, a, s2) && StandsAt(fmt, b, s3) && StandsAt(fmt, d, s4)
  {
    a := i + 1 + |s1|;
    b := a + |s2|;
    d := b + |s3|;
    e := d + |s4|;
    StandsParts(fmt, i, "%", t1);
    StandsFirst(fmt, i, "%");
    StandsParts(fmt, i + 1, s1, t2);
    StandsParts(fmt, a, s2, t3);
    StandsParts(fmt, b, s3, t4);
    StandsParts(fmt, d, s4, s5);
    StandsFirst(fmt, e, s5);
  }

  lemma FirstOf(fmt: string, i: nat, s: string, c: char)
    requires StandsAt(fmt, i, s) && At(fmt, i + |s|) == c
    ensures At(fmt, i) == if s == "" then c else s[0]
  {
    if s != "" { StandsFirst(fmt, i, s); }
  }

  /** No part runs into the next. */
  lemma PartsEnd(fmt: string, a: nat, b: nat, d: nat, e: nat, w: Measure, p: Measure, q: string, c: char)
    requires WellFormed("", w, p, q, c)
    requires b == a + |MeasureText(w)| && d == b + |PrecisionText(p)| && e == d + |q| && At(fmt, e) == c
    requires StandsAt(fmt, a, MeasureText(w)) && StandsAt(fmt, b, PrecisionText(p)) && StandsAt(fmt, d, q)
    ensures !IsFlag(At(fmt, a))
    ensures !IsDigit(At(fmt, b)) && At(fmt, b) != '*'
    ensures !IsDigit(At(fmt, d)) && At(fmt, d) != '*' && At(fmt, d) != '.'
  {
    FirstOf(fmt, d, q, c);
    FirstOf(fmt, b, PrecisionText(p), At(fmt, d));
    FirstOf(fmt, a, MeasureText(w), At(fmt, b));
    if w.Given? {
      LeadDigit(w.n, 10, false);
      DecimalDigits(w.n, false);
      assert IsDigit(MeasureText(w)[0]) && MeasureText(w)[0] != '0';
    }
  }

  lemma FlagsMean(fl: string, f: Flags)
    requires AllFlags(fl) && f == FlagsOf(fl, NoFlags)
    ensures f.left == ('-' in fl) && f.plus == ('+' in fl) && f.space == (' ' in fl)
    ensures f.special == ('#' in fl) && f.zeroPad == ('0' in fl) && !f.large && !f.sign
  {
    FlagOccurs(fl, NoFlags, '-');
    FlagOccurs(fl, NoFlags, '+');
    FlagOccurs(fl, NoFlags, ' ');
    FlagOccurs(fl, NoFlags, '#');
    FlagOccurs(fl, NoFlags, '0');
  }

  /** Text without '%' is copied. */
  lemma {:induction false} PlainCopied(fmt: string, i: nat, j: nat, args: seq<Arg>, k: nat)
    requires i <= j <= |fmt| && forall n :: i <= n < j ==> fmt[n] != '%' && fmt[n] != '\0'
    ensures Format(fmt, i, args, k) == fmt[i..j] + Format(fmt, j, args, k)
    decreases j - i
  {
    if i < j {
      PlainCopied(fmt, i + 1, j, args, k);
      FirstCopied(fmt[i], fmt[i..j], fmt[i + 1..j], Format(fmt, i + 1, args, k), Format(fmt, j, args, k));
    }
  }

  lemma FirstCopied(c: char, s: string, t: string, x: string, y: string)
    requires s == [c] + t && x == t + y
    ensures [c] + x == s + y
  {
  }

  /** The argument converted, behind those for width and precision. */
  function Converted(w: Measure, p: Measure, k: nat): nat { Behind(p, Behind(w, k)) }

  /** What a conversion asks for. */
  function SpecOf(fl: string, w: Measure, p: Measure, q: string, args: seq<Arg>, k: nat, next: nat): Spec {
    Spec(Flags('0' in fl, false, '+' in fl, ' ' in fl, IsLeft(fl, w, args, k), '#' in fl, false),
      WidthOf(w, args, k), PrecisionOf(p, args, Behind(w, k)), Qualifier(q), next, Converted(w, p, k))
  }

  /** What the reading of a conversion gives. */
  lemma ConversionRead(fmt: string, i: nat, args: seq<Arg>, k: nat, fl: string, w: Measure, p: Measure, q: string, c: char)
    returns (s: Spec, next: nat)
    requires WellFormed(fl, w, p, q, c) && StandsAt(fmt, i, Conversion(fl, w, p, q, c))
    ensures i < |fmt| && fmt[i] == '%' && s == ReadSpec(fmt, i + 1, args, k)
    ensures s.next + 1 == next == i + |Conversion(fl, w, p, q, c)| <= |fmt| && At(fmt, s.next) == c
    ensures s == SpecOf(fl, w, p, q, args, k, s.next)
  {
    var a, b, d, e := PartsStand(fmt, i, fl, w, p, q, c);
    PartsEnd(fmt, a, b, d, e, w, p, q, c);
    s := PartsSpec(fmt, i + 1, fl, a, b, d, e, w, p, q, args, k);
    next := e + 1;
  }

  lemma PartsSpec(fmt: string, i: nat, fl: string, a: nat, b: nat, d: nat, e: nat, w: Measure, p: Measure, q: string,
                  args: seq<Arg>, k: nat)
    returns (s: Spec)
    requires e <= |fmt| && a == i + |fl| && b == a + |MeasureText(w)| && d == b + |PrecisionText(p)| && e == d + |q|
    requires StandsAt(fmt, i, fl) && StandsAt(fmt, a, MeasureText(w)) && StandsAt(fmt, b, PrecisionText(p)) && StandsAt(fmt, d, q)
    requires AllFlags(fl)
    requires (w.Given? ==> w.n < 0x8000_0000) && (p.Given? ==> p.n < 0x8000_0000) && (q == "" || q == "h" || q == "l")
    requires !IsFlag(At(fmt, a)) && !IsDigit(At(fmt, b)) && At(fmt, b) != '*' && At(fmt, e) != 'h' && At(fmt, e) != 'l'
    requires !IsDigit(At(fmt, d)) && At(fmt, d) != '*' && At(fmt, d) != '.'
    ensures s == ReadSpec(fmt, i, args, k) && s.next == e && s == SpecOf(fl, w, p, q, args, k, e)
  {
    var f := FlagsOf(fl, NoFlags);
    FlagsMean(fl, f);
    s := PartsRead(fmt, i, fl, a, b, d, e, w, p, q, args, k, f);
  }

  lemma PartsRead(fmt: string, i: nat, fl: string, a: nat, b: nat, d: nat, e: nat, w: Measure, p: Measure, q: string,
                  args: seq<Arg>, k: nat, f: Flags)
    returns (s: Spec)
    requires e <= |fmt| && a == i + |fl| && b == a + |MeasureText(w)| && d == b + |PrecisionText(p)| && e == d + |q|
    requires StandsAt(fmt, i, fl) && StandsAt(fmt, a, MeasureText(w)) && StandsAt(fmt, b, PrecisionText(p)) && StandsAt(fmt, d, q)
    requires AllFlags(fl) && f == FlagsOf(fl, NoFlags)
    requires (w.Given? ==> w.n < 0x8000_0000) && (p.Given? ==> p.n < 0x8000_0000) && (q == "" || q == "h" || q == "l")
    requires !IsFlag(At(fmt, a)) && !IsDigit(At(fmt, b)) && At(fmt, b) != '*' && At(fmt, e) != 'h' && At(fmt, e) != 'l'
    requires !IsDigit(At(fmt, d)) && At(fmt, d) != '*' && At(fmt, d) != '.'
    ensures s == ReadSpec(fmt, i, args, k) && s.next == e && s.flags == f.(left := f.left || NegativeWidth(w, args, k))
    ensures s.width == WidthOf(w, args, k) && s.precision == PrecisionOf(p, args, Behind(w, k))
    ensures s.qualifier == Qualifier(q) && s.k == Behind(p, Behind(w, k))
  {
    FlagsRead(fmt, i, fl, NoFlags);
    var s1 := WidthRead(fmt, a, w, args, k, f, b);
    var s2 := PrecisionRead(fmt, p, args, s1, d);
    s := QualifierRead(fmt, q, s2, e);
    SpecRead(fmt, i, args, k, f, a, s1, s2, s);
  }

  lemma SpecRead(fmt: string, i: nat, args: seq<Arg>, k: nat, f: Flags, a: nat, s1: Spec, s2: Spec, s: Spec)
    requires i <= |fmt| && a == FlagsEnd(fmt, i) && f == ReadFlags(fmt, i, NoFlags)
    requires s1 == ReadWidth(fmt, a, args, k, f) && s2 == ReadPrecision(fmt, args, s1) && s == ReadQualifier(fmt, s2)
    ensures ReadSpec(fmt, i, args, k) == s
  {
  }

  // ---------- what is printed ----------

  /** The conversion at i: its specification, character and text, and where format and arguments go on. */
  lemma ConversionAt(fmt: string, i: nat, args: seq<Arg>, k: nat, s: Spec, c: char, t: string, next: nat, used: nat)
    requires i < |fmt| && fmt[i] == '%'
    requires s == ReadSpec(fmt, i + 1, args, k) && c == At(fmt, s.next) && t == SpecText(c, args, s)
    requires next == Printf.After(c, s) && used == ArgsAfter(c, s)
    ensures i < next <= |fmt| && Format(fmt, i, args, k) == t + Format(fmt, next, args, used)
  {
  }

  /** A sign and digits, laid out as flags, width and precision ask. */
  function Shown(sign: string, prefix: string, ds: string, fl: string, w: Measure, p: Measure, args: seq<Arg>, k: nat): string {
    NumberField(sign, prefix, ds, WidthOf(w, args, k), PrecisionOf(p, args, Behind(w, k)), IsLeft(fl, w, args, k), '0' in fl)
  }

  /** An integer conversion, once its specification is read. */
  lemma IntegerSpecText(c: char, args: seq<Arg>, s: Spec, f: Flags, v: nat, num: nat, mag: nat, sign: char) returns (ds: string)
    requires IsInteger(c) && f == IntegerFlags(c, s.flags) && v == WordAt(args, s.k)
    requires num == Operand(v, s.qualifier, f.sign) && (mag, sign) == SignOf(num, s.qualifier, f)
    ensures Shows(ds, mag, Base(c), f.large)
    ensures SpecText(c, args, s)
         == NumberField(SignText(sign), Prefix(Base(c), f), ds, s.width, s.precision, s.flags.left, s.flags.zeroPad)
  {
    ds := PrintedIsLayout(num, Base(c), s.qualifier, s.width, s.precision, f, mag, sign);
    IntegerPrinted(c, args, s, f, v, num);
  }

  lemma IntegerPrinted(c: char, args: seq<Arg>, s: Spec, f: Flags, v: nat, num: nat)
    requires IsInteger(c) && f == IntegerFlags(c, s.flags) && v == WordAt(args, s.k) && num == Operand(v, s.qualifier, f.sign)
    ensures SpecText(c, args, s) == PrintedNumber(num, Base(c), s.qualifier, s.width, s.precision, f)
  {
  }

  function UnsignedOperand(v: nat, q: string): nat { if q == "h" then v % 0x1_0000 else v }

  /** The bases of the unsigned conversions. */
  ghost predicate InBase(c: char, base: nat) {
    (c == 'x' && base == 16) || (c == 'X' && base == 16) || (c == 'o' && base == 8) || (c == 'b' && base == 2) || (c == 'u' && base == 10)
  }

  /** The prefix that '#' puts in front of the digits. */
  function PrefixOf(c: char, fl: string): string {
    if '#' !in fl then ""
    else if c == 'x' then "0x" else if c == 'X' then "0X" else if c == 'o' then "0" else if c == 'b' then "0b" else ""
  }

  /**
   %x, %X, %o, %b and %u: the digits denote the argument, cut to 16 bits for 'h', in base 16, 16, 8,
   2 or 10, and they are laid out as flags, width and precision ask.
   */
  lemma UnsignedShown(fmt: string, i: nat, args: seq<Arg>, k: nat, fl: string, w: Measure, p: Measure, q: string, c: char, base: nat)
    returns (ds: string, shown: string, next: nat, used: nat)
    requires WellFormed(fl, w, p, q, c) && StandsAt(fmt, i, Conversion(fl, w, p, q, c))
    requires InBase(c, base)
    ensures Shows(ds, UnsignedOperand(WordAt(args, Converted(w, p, k)), q), base, c == 'X')
    ensures shown == Shown("", PrefixOf(c, fl), ds, fl, w, p, args, k)
    ensures next == i + |Conversion(fl, w, p, q, c)| <= |fmt| && used == Converted(w, p, k) + 1
    ensures Format(fmt, i, args, k) == shown + Format(fmt, next, args, used)
  {
    var s: Spec;
    s, next := ConversionRead(fmt, i, args, k, fl, w, p, q, c);
    ds := UnsignedText(c, base, args, k, fl, w, p, q, s);
    shown, used := Shown("", PrefixOf(c, fl), ds, fl, w, p, args, k), s.k + 1;
    ConversionAt(fmt, i, args, k, s, c, shown, next, used);
  }

  lemma UnsignedText(c: char, base: nat, args: seq<Arg>, k: nat, fl: string, w: Measure, p: Measure, q: string, s: Spec)
    returns (ds: string)
    requires InBase(c, base) && (q == "" || q == "h" || q == "l")
    requires s == SpecOf(fl, w, p, q, args, k, s.next)
    ensures Shows(ds, UnsignedOperand(WordAt(args, s.k), q), base, c == 'X')
    ensures SpecText(c, args, s) == Shown("", PrefixOf(c, fl), ds, fl, w, p, args, k)
  {
    var f, v := IntegerFlags(c, s.flags), WordAt(args, s.k);
    var num := Operand(v, s.qualifier, f.sign);
    UnsignedParts(c, base, f, v, q, fl);
    ds := IntegerSpecText(c, args, s, f, v, num, num, '\0');
  }

  lemma UnsignedParts(c: char, base: nat, f: Flags, v: nat, q: string, fl: string)
    requires InBase(c, base) && (q == "" || q == "h" || q == "l") && v < WORD
    requires f.special == ('#' in fl) && f.large == (c == 'X') && !f.sign
    ensures Base(c) == base && Prefix(base, f) == PrefixOf(c, fl) && IsInteger(c)
    ensures var num := Operand(v, Qualifier(q), f.sign);
      num == UnsignedOperand(v, q) && SignOf(num, Qualifier(q), f) == (num, '\0') && SignText('\0') == ""
  {
  }

  /**
   %d and %i: '-' for a negative argument, read as an int or for 'h' as a short, otherwise what the
   flags '+' and ' ' ask for; then the decimal digits of its magnitude.
   */
  lemma SignedShown(fmt: string, i: nat, args: seq<Arg>, k: nat, fl: string, w: Measure, p: Measure, q: string, c: char)
    returns (ds: string, shown: string, next: nat, used: nat)
    requires WellFormed(fl, w, p, q, c) && StandsAt(fmt, i, Conversion(fl, w, p, q, c)) && (c == 'd' || c == 'i')
    ensures var n := SignedOperand(WordAt(args, Converted(w, p, k)), q);
      Shows(ds, if n < 0 then -n else n, 10, false) && shown == Shown(SignShown(n, fl), "", ds, fl, w, p, args, k)
    ensures next == i + |Conversion(fl, w, p, q, c)| <= |fmt| && used == Converted(w, p, k) + 1
    ensures Format(fmt, i, args, k) == shown + Format(fmt, next, args, used)
  {
    var s: Spec;
    var sign: string;
    s, next := ConversionRead(fmt, i, args, k, fl, w, p, q, c);
    sign, ds := SignedText(c, args, k, fl, w, p, q, s);
    shown, used := Shown(sign, "", ds, fl, w, p, args, k), s.k + 1;
    ConversionAt(fmt, i, args, k, s, c, shown, next, used);
  }

  function SignShown(n: int, fl: string): string {
    if n < 0 then "-" else if '+' in fl then "+" else if ' ' in fl then " " else ""
  }

  function SignedOperand(v: nat, q: string): int { if q == "h" then Short(v) else Signed(v) }

  lemma SignedText(c: char, args: seq<Arg>, k: nat, fl: string, w: Measure, p: Measure, q: string, s: Spec)
    returns (sign: string, ds: string)
    requires (c == 'd' || c == 'i') && (q == "" || q == "h" || q == "l")
    requires s == SpecOf(fl, w, p, q, args, k, s.next)
    ensures sign == SignShown(SignedOperand(WordAt(args, s.k), q), fl)
    ensures var n := SignedOperand(WordAt(args, s.k), q); Shows(ds, if n < 0 then -n else n, 10, false)
    ensures SpecText(c, args, s) == Shown(sign, "", ds, fl, w, p, args, k)
  {
    var f, v := IntegerFlags(c, s.flags), WordAt(args, s.k);
    var num := Operand(v, s.qualifier, f.sign);
    var r := SignOf(num, s.qualifier, f);
    SignMeaning(v, s.qualifier, f);
    sign := SignText(r.1);
    ds := IntegerSpecText(c, args, s, f, v, num, r.0, r.1);
  }

  /** %p: a hexadecimal number, by default of 8 digits behind "0x". */
  lemma PointerShown(fmt: string, i: nat, args: seq<Arg>, k: nat, fl: string, w: Measure, p: Measure, q: string)
    returns (ds: string, shown: string, next: nat, used: nat)
    requires WellFormed(fl, w, p, q, 'p') && StandsAt(fmt, i, Conversion(fl, w, p, q, 'p'))
    ensures Shows(ds, WordAt(args, Converted(w, p, k)), 16, false)
    ensures shown == NumberField("", if w.Absent? || '#' in fl then "0x" else "", ds, if w.Absent? then 10 else WidthOf(w, args, k),
      PrecisionOf(p, args, Behind(w, k)), IsLeft(fl, w, args, k), w.Absent? || '0' in fl)
    ensures next == i + |Conversion(fl, w, p, q, 'p')| <= |fmt| && used == Converted(w, p, k) + 1
    ensures Format(fmt, i, args, k) == shown + Format(fmt, next, args, used)
  {
    var s: Spec;
    s, next := ConversionRead(fmt, i, args, k, fl, w, p, q, 'p');
    ds, shown := PointerSpecText(args, k, fl, w, p, q, s);
    used := s.k + 1;
    ConversionAt(fmt, i, args, k, s, 'p', shown, next, used);
  }

  lemma PointerSpecText(args: seq<Arg>, k: nat, fl: string, w: Measure, p: Measure, q: string, s: Spec)
    returns (ds: string, shown: string)
    requires s == SpecOf(fl, w, p, q, args, k, s.next)
    ensures Shows(ds, WordAt(args, s.k), 16, false) && shown == SpecText('p', args, s)
    ensures shown == NumberField("", if w.Absent? || '#' in fl then "0x" else "", ds, if w.Absent? then 10 else WidthOf(w, args, k),
      PrecisionOf(p, args, Behind(w, k)), IsLeft(fl, w, args, k), w.Absent? || '0' in fl)
  {
    var r, v := PointerSpec(s), WordAt(args, s.k);
    shown := PointerText(v, r);
    ds := PrintedIsLayout(v, 16, r.qualifier, r.width, r.precision, r.flags, v, '\0');
    assert SignText('\0') == "" && Prefix(16, r.flags) == if w.Absent? || '#' in fl then "0x" else "";
  }

  /** A character, or as much of a string as is to be shown, on the named side of its field; or '%'. */
  function TextField(c: char, args: seq<Arg>, n: nat, width: int, precision: int, left: bool): string {
    if c == 'c' then Layout("", "", 0, [(WordAt(args, n) % 256) as char], width, left, false)
    else if c == 's' then
      var len := TextLength(TextAt(args, n), width, precision);
      Layout("", "", 0, TextAt(args, n)[..len], width, left, false)
    else "%"
  }

  /** %c, %s and %%. */
  lemma TextShown(fmt: string, i: nat, args: seq<Arg>, k: nat, fl: string, w: Measure, p: Measure, q: string, c: char)
    returns (shown: string, next: nat, used: nat)
    requires WellFormed(fl, w, p, q, c) && StandsAt(fmt, i, Conversion(fl, w, p, q, c)) && (c == 'c' || c == 's' || c == '%')
    ensures shown == TextField(c, args, Converted(w, p, k), WidthOf(w, args, k), PrecisionOf(p, args, Behind(w, k)), IsLeft(fl, w, args, k))
    ensures next == i + |Conversion(fl, w, p, q, c)| <= |fmt|
    ensures used == if c == '%' then Converted(w, p, k) else Converted(w, p, k) + 1
    ensures Format(fmt, i, args, k) == shown + Format(fmt, next, args, used)
  {
    var s: Spec;
    s, next := ConversionRead(fmt, i, args, k, fl, w, p, q, c);
    shown, used := TextField(c, args, s.k, s.width, s.precision, s.flags.left), ArgsAfter(c, s);
    TextSpecText(c, args, s, shown);
    ConversionAt(fmt, i, args, k, s, c, shown, next, used);
  }

  lemma TextSpecText(c: char, args: seq<Arg>, s: Spec, shown: string)
    requires (c == 'c' || c == 's' || c == '%') && shown == TextField(c, args, s.k, s.width, s.precision, s.flags.left)
    ensures SpecText(c, args, s) == shown
  {
    if c == 'c' {
      TextLayout([(WordAt(args, s.k) % 256) as char], s.width, s.flags.left);
    } else if c == 's' {
      TextLayout(TextAt(args, s.k)[..TextLength(TextAt(args, s.k), s.width, s.precision)], s.width, s.flags.left);
    }
  }

  lemma TextLayout(t: string, width: int, left: bool)
    ensures Layout("", "", 0, t, width, left, false)
         == if left then t + Rep(' ', width - |t|) else Rep(' ', width - |t|) + t
  {
  }

  /**
   A number in its field, for any precision but 0: blanks, sign, prefix, zeros and digits, blanks,
   as long as the width if that is more.  Blanks stand in front only without '-' and '0', and behind
   only with '-'; zeros beyond the precision only with '0' and without '-'; and the zeros and digits
   together still denote the number.
   */
  lemma ShownParts(sign: string, prefix: string, ds: string, base: nat,
                   fl: string, w: Measure, p: Measure, args: seq<Arg>, k: nat)
    returns (at: nat, fill: nat, tail: nat)
    requires PrecisionOf(p, args, Behind(w, k)) != 0
    ensures Shown(sign, prefix, ds, fl, w, p, args, k)
         == Rep(' ', at) + (sign + (prefix + ((Rep('0', fill) + ds) + Rep(' ', tail))))
    ensures Value(Rep('0', fill) + ds, base) == Value(ds, base)
    ensures fill + |ds| >= PrecisionOf(p, args, Behind(w, k))
    ensures var n := |sign| + |prefix| + fill + |ds|;
      at + n + tail == if WidthOf(w, args, k) > n then WidthOf(w, args, k) else n
    ensures (at > 0 ==> !IsLeft(fl, w, args, k) && '0' !in fl) && (tail > 0 ==> IsLeft(fl, w, args, k))
    ensures fill + |ds| > PrecisionOf(p, args, Behind(w, k)) && fill > 0 ==> '0' in fl && !IsLeft(fl, w, args, k)
  {
    var precision, width := PrecisionOf(p, args, Behind(w, k)), WidthOf(w, args, k);
    var zeros := if precision > |ds| then precision - |ds| else 0;
    var left, zeroPad := IsLeft(fl, w, args, k), '0' in fl;
    at, fill, tail := LayoutParts(sign, prefix, zeros, ds, width, left, zeroPad, base);
    LayoutLength(sign, prefix, zeros, ds, width, left, zeroPad);
  }

  /** A plain conversion prints the digits of its argument and nothing else. */
  lemma PlainUnsigned(v: nat, c: char, base: nat) returns (ds: string)
    requires v < WORD && InBase(c, base)
    ensures Format("%" + [c], 0, [Word(v)], 0) == ds && Shows(ds, v, base, c == 'X')
  {
    var shown: string;
    ds, shown := WholeUnsigned("%" + [c], "", Absent, v, c, base);
    PlainLayout(ds, [Word(v)]);
  }

  /** A format that is one conversion. */
  lemma WholeUnsigned(fmt: string, fl: string, p: Measure, v: nat, c: char, base: nat) returns (ds: string, shown: string)
    requires v < WORD && InBase(c, base) && WellFormed(fl, Absent, p, "", c) && !p.Asked?
    requires fmt == "%" + fl + PrecisionText(p) + [c]
    ensures Shows(ds, v, base, c == 'X') && shown == Shown("", PrefixOf(c, fl), ds, fl, Absent, p, [Word(v)], 0)
    ensures Format(fmt, 0, [Word(v)], 0) == shown
  {
    WholeFormat(fmt, fl, p, c);
    var next, used: nat;
    ds, shown, next, used := UnsignedShown(fmt, 0, [Word(v)], 0, fl, Absent, p, "", c, base);
    OneWord(v, p);
    FormatEnd(fmt, [Word(v)], next, used, shown);
  }

  lemma OneWord(v: nat, p: Measure)
    requires v < WORD && !p.Asked?
    ensures UnsignedOperand(WordAt([Word(v)], Converted(Absent, p, 0)), "") == v
  {
  }

  lemma WholeFormat(fmt: string, fl: string, p: Measure, c: char)
    requires fmt == "%" + fl + PrecisionText(p) + [c]
    ensures StandsAt(fmt, 0, Conversion(fl, Absent, p, "", c)) && |Conversion(fl, Absent, p, "", c)| == |fmt|
  {
    Regrouped(fmt, fl, PrecisionText(p), [c]);
  }

  lemma Regrouped(fmt: string, a: string, b: string, c: string)
    requires fmt == "%" + a + b + c
    ensures fmt == "%" + (a + ("" + (b + ("" + c)))) && fmt[0..|fmt|] == fmt
  {
    assert "" + c == c && "" + (b + c) == b + c;
  }

  lemma PlainLayout(ds: string, args: seq<Arg>)
    ensures Shown("", "", ds, "", Absent, Absent, args, 0) == ds
  {
  }

  lemma FormatEnd(fmt: string, args: seq<Arg>, next: nat, k: nat, t: string)
    requires next == |fmt| && Format(fmt, 0, args, 0) == t + Format(fmt, next, args, k)
    ensures Format(fmt, 0, args, 0) == t
  {
    assert t + [] == t;
  }

  /** A precision of 0 prints no number at all, not only no 0. */
  lemma NothingShown(v: nat)
    requires v < WORD
    ensures Format("%.0u", 0, [Word(v)], 0) == ""
  {
    var ds, shown := WholeUnsigned("%.0u", "", Given(0), v, 'u', 10);
  }

  /** '#' puts its prefix in front of 0 as well. */
  lemma PrefixedZero()
    ensures Format("%#x", 0, [Word(0)], 0) == "0x0"
  {
    var ds, shown := WholeUnsigned("%#x", "#", Absent, 0, 'x', 16);
    PrefixAndZero(ds, [Word(0)]);
  }

  lemma PrefixAndZero(ds: string, args: seq<Arg>)
    requires Shows(ds, 0, 16, false)
    ensures Shown("", "0x", ds, "#", Absent, Absent, args, 0) == "0x0"
  {
    ShowsZero(ds, 16, false);
    assert ds == "0";
  }

  lemma {:induction false} ShowsZero(ds: string, base: nat, large: bool)
    requires ds != [] && Value(ds, base) == 0 && base > 0 && forall k :: 0 <= k < |ds| ==> IsDigitOf(ds[k], base, large)
    ensures ds[0] == '0'
    decreases |ds|
  {
    if |ds| > 1 { ShowsZero(ds[..|ds| - 1], base, large); }
  }
}
