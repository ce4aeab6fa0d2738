/**
  lib/stdio.c: itoa and vsprintf, with the strcpy and strlen of lib/string.c that they call.
  Words are 32 bits; a C string is the characters before its NUL.
 */
module Stdio {
  import opened Outcomes

  const NUL := '\0'
  const WORDS := 0x1_0000_0000

  predicate CString(s: string) {
    NUL !in s
  }

  // ----- Numbers --------------------------------------------------------------------------------

  predicate IsBase(base: nat) {
    2 <= base <= 36
  }

  function DigitChar(m: nat): char
    requires m < 36
  {
    if m < 10 then '0' + m as char else 'A' + (m - 10) as char
  }

  function Digits(value: nat, base: nat): string
    requires IsBase(base)
    decreases value
  {
    (if value / base == 0 then "" else Digits(Quotient(value, base), base)) + [DigitChar(value % base)]
  }

  function Quotient(value: nat, base: nat): (q: nat)
    requires IsBase(base) && value / base != 0
    ensures q == value / base < value && value == q * base + value % base
  {
    QuotientLess(value, base);
    value / base
  }

  lemma QuotientLess(value: nat, base: nat)
    requires base >= 2 && value / base != 0
    ensures value / base < value && value == value / base * base + value % base
  {
    Times(base - 1, value / base);
  }

  function DigitValue(c: char): nat {
    if '0' <= c <= '9' then c as nat - '0' as nat else if 'A' <= c <= 'Z' then c as nat - 'A' as nat + 10 else 36
  }

  predicate Numeral(s: string, base: nat) {
    s != "" && forall c <- s :: DigitValue(c) < base
  }

  /** The number a numeral stands for, most significant digit first. */
  function Parse(s: string, base: nat): nat {
    if s == "" then 0 else Parse(s[..|s| - 1], base) * base + DigitValue(s[|s| - 1])
  }

  lemma DigitRound(m: nat)
    requires m < 36
    ensures DigitValue(DigitChar(m)) == m && DigitChar(m) != NUL
  {
  }

  lemma DigitBack(c: char)
    requires DigitValue(c) < 36
    ensures DigitChar(DigitValue(c)) == c
  {
  }

  /** The digits parse back to the value, and only zero starts with a zero. */
  lemma {:induction false} DigitsParse(value: nat, base: nat)
    requires IsBase(base)
    ensures var s := Digits(value, base);
            Numeral(s, base) && Parse(s, base) == value && (s[0] == '0' <==> value == 0) && CString(s)
    decreases value
  {
    var s, q := Digits(value, base), value / base;
    DigitRound(value % base);
    assert s[|s| - 1] == DigitChar(value % base);
    if q == 0 {
      assert value % base == value;
      assert s[..|s| - 1] == "" && Parse("", base) == 0;
    } else {
      var _ := Quotient(value, base);
      DigitsParse(q, base);
      assert s[..|s| - 1] == Digits(q, base);
    }
  }

  lemma DigitsOne(r: nat, base: nat)
    requires IsBase(base) && r < base
    ensures Digits(r, base) == [DigitChar(r)]
  {
    hide Digits;
    DivMod(0, r, base);
    OneDigit(r, base);
  }

  lemma OneDigit(r: nat, base: nat)
    requires IsBase(base) && r / base == 0 && r % base == r
    ensures r < 36 && Digits(r, base) == [DigitChar(r)]
  {
  }

  lemma DigitsMore(q: nat, r: nat, base: nat)
    requires IsBase(base) && q > 0 && r < base
    ensures q * base + r > 0 && Digits(q * base + r, base) == Digits(q, base) + [DigitChar(r)]
  {
    Times(q, base);
    DivMod(q, r, base);
  }

  lemma ParseLast(pre: string, c: char, base: nat)
    ensures Parse(pre + [c], base) == Parse(pre, base) * base + DigitValue(c)
  {
    assert (pre + [c])[..|pre|] == pre;
  }

  lemma ParseNothing(base: nat)
    ensures Parse("", base) == 0
  {
  }

  /** A numeral without a leading zero is the digits of its value: itoa's output is the only one. */
  lemma {:induction false} DigitsUnique(s: string, base: nat)
    requires IsBase(base) && Numeral(s, base) && (s[0] == '0' ==> |s| == 1)
    ensures Digits(Parse(s, base), base) == s && (s[0] != '0' ==> Parse(s, base) > 0)
    decreases |s|
  {
    hide Digits, DigitChar, Parse;
    var n := |s| - 1;
    var pre, c := s[..n], s[n];
    assert c in s;
    DigitBack(c);
    assert s == pre + [c];
    ParseLast(pre, c, base);
    if pre == "" {
      ParseNothing(base);
      DigitsOne(DigitValue(c), base);
    } else {
      assert Numeral(pre, base) && pre[0] == s[0];
      DigitsUnique(pre, base);
      DigitsMore(Parse(pre, base), DigitValue(c), base);
    }
  }

  lemma DivMod(q: nat, r: nat, base: nat)
    requires r < base
    ensures (q * base + r) / base == q && (q * base + r) % base == r
  {
    var v := q * base + r;
    var k, m := v / base, v % base;
    assert v == k * base + m && m < base;
    assert (k - q) * base == k * base - q * base;
    SmallMultiple(k - q, base);
  }

  lemma SmallMultiple(k: int, base: int)
    requires 0 <= base && -base < k * base < base
    ensures k == 0
  {
    if k >= 1 {
      Times(k, base);
    } else if k <= -1 {
      Times(-k, base);
    }
  }

  function Power(base: nat, n: nat): nat {
    if n == 0 then 1 else base * Power(base, n - 1)
  }

  /** The length is exact: n digits below base to the n, and not below base to the n - 1. */
  lemma {:induction false} DigitsLength(value: nat, base: nat)
    requires IsBase(base) && value > 0
    ensures var n := |Digits(value, base)|; n > 0 && Power(base, n - 1) <= value < Power(base, n)
    decreases value
  {
    var q := value / base;
    if q == 0 {
      assert value % base == value && Power(base, 0) == 1 && Power(base, 1) == base;
    } else {
      var _ := Quotient(value, base);
      DigitsLength(q, base);
      var n := |Digits(q, base)|;
      assert Power(base, n) == base * Power(base, n - 1);
      assert Power(base, n + 1) == base * Power(base, n);
      Scale(Power(base, n - 1), q, Power(base, n), base, value % base);
    }
  }

  lemma Scale(a: nat, q: nat, b: nat, base: nat, r: nat)
    requires a <= q < b && r < base
    ensures base * a <= q * base + r < base * b
  {
    Monotone(base, a, q);
    Monotone(base, q + 1, b);
    assert base * (q + 1) == q * base + base;
  }

  lemma Monotone(base: nat, x: nat, y: nat)
    requires x <= y
    ensures base * x <= base * y
  {
  }

  lemma {:induction false} PowerGrows(base: nat, m: nat, n: nat)
    requires base >= 1 && m <= n
    ensures 1 <= Power(base, m) <= Power(base, n)
    decreases n
  {
    if n == 0 {
    } else if m == n {
      PowerGrows(base, n - 1, n - 1);
      Times(base, Power(base, n - 1));
    } else {
      PowerGrows(base, m, n - 1);
      Times(base, Power(base, n - 1));
    }
  }

  lemma Times(base: int, p: int)
    requires base >= 1 && p >= 0
    ensures base * p >= p
  {
  }

  /** A value below base to the n has at most n digits. */
  lemma DigitsFit(value: nat, base: nat, n: nat)
    requires IsBase(base) && n > 0 && value < Power(base, n)
    ensures |Digits(value, base)| <= n
  {
    hide Power;
    if value > 0 {
      DigitsLength(value, base);
      var k := |Digits(value, base)|;
      if k > n {
        PowerGrows(base, n, k - 1);
      }
    }
  }

  /** At most ten decimal and eight hexadecimal digits for a word. */
  lemma WordDigits(w: nat)
    requires w < WORDS
    ensures |Digits(w, 10)| <= 10 && |Digits(w, 16)| <= 8
  {
    calc { Power(10, 10); 10 * Power(10, 9); 100 * Power(10, 8); 10000 * Power(10, 6); 1000000 * Power(10, 4); 10000000000; }
    calc { Power(16, 8); 16 * Power(16, 7); 256 * Power(16, 6); 65536 * Power(16, 4); WORDS; }
    DigitsFit(w, 10, 10);
    DigitsFit(w, 16, 8);
  }

  /** The signed value of a word. */
  function Signed(w: nat): int {
    if w < WORDS / 2 then w else w - WORDS
  }

  /** What %d prints: a sign and the magnitude, also for the least value. */
  function Decimal(w: nat): string
    requires w < WORDS
  {
    if Signed(w) < 0 then "-" + Digits(-Signed(w), 10) else Digits(Signed(w), 10)
  }

  function ParseSigned(s: string): int {
    if s != "" && s[0] == '-' then
      var magnitude: int := Parse(s[1..], 10);
      -magnitude
    else
      Parse(s, 10)
  }

  lemma DecimalParses(w: nat)
    requires w < WORDS
    ensures ParseSigned(Decimal(w)) == Signed(w) && |Decimal(w)| <= 11
  {
    hide Digits, Parse;
    if Signed(w) < 0 {
      DigitsParse(-Signed(w), 10);
      WordDigits(-Signed(w));
      assert Decimal(w)[1..] == Digits(-Signed(w), 10);
    } else {
      DigitsParse(w, 10);
      WordDigits(w);
      assert Digits(w, 10)[0] in Digits(w, 10);
    }
  }

  // ----- Formats ------------------------------------------------------------------------------------

  datatype Arg = Word(w: nat) | Text(s: string) | NullText

  /** What a conversion prints; strcpy stops the machine on NULL. */
  datatype Expansion = Expansion(text: string, halted: bool)

  function Then(text: string, rest: Expansion): Expansion {
    Expansion(text + rest.text, rest.halted)
  }

  predicate Conversion(c: char) {
    c == 'x' || c == 's' || c == 'c' || c == 'd'
  }

  predicate ArgFits(c: char, arg: Arg) {
    match arg
    case Word(w) => c != 's' && w < WORDS
    case Text(s) => c == 's' && CString(s)
    case NullText => c == 's'
  }

  /** The format does not end in a lone % and its conversions find arguments of their kind. */
  predicate Fits(format: string, args: seq<Arg>) {
    if format == "" then true
    else if format[0] != '%' then Fits(format[1..], args)
    else
      && |format| >= 2
      && if !Conversion(format[1]) then Fits(format[2..], args)
         else args != [] && ArgFits(format[1], args[0]) && (args[0].NullText? || Fits(format[2..], args[1..]))
  }

  function Convert(c: char, arg: Arg): string
    requires ArgFits(c, arg) && !arg.NullText?
  {
    match arg
    case Text(s) => s
    case Word(w) => if c == 'x' then Digits(w, 16) else if c == 'c' then [(w % 256) as char] else Decimal(w)
  }

  /** The expansion of a format: plain characters stand for themselves, an unknown conversion for nothing. */
  function Expand(format: string, args: seq<Arg>): Expansion
    requires Fits(format, args)
  {
    if format == "" then Expansion("", false)
    else if format[0] != '%' then Then(format[..1], Expand(format[1..], args))
    else if !Conversion(format[1]) then Expand(format[2..], args)
    else if args[0].NullText? then Expansion("", true)
    else Then(Convert(format[1], args[0]), Expand(format[2..], args[1..]))
  }

  /** How many arguments a format uses up. */
  function Uses(format: string): nat {
    if |format| < 2 then 0
    else if format[0] != '%' then Uses(format[1..])
    else Uses(format[2..]) + if Conversion(format[1]) then 1 else 0
  }

  lemma PlainFirst(f: string, args: seq<Arg>)
    requires f != "" && f[0] != '%'
    ensures Uses(f) == Uses(f[1..]) && Fits(f, args) == Fits(f[1..], args)
    ensures Fits(f, args) ==> Expand(f, args) == Then(f[..1], Expand(f[1..], args))
  {
  }

  lemma UnknownFirst(f: string, args: seq<Arg>)
    requires |f| >= 2 && f[0] == '%' && !Conversion(f[1])
    ensures Uses(f) == Uses(f[2..]) && Fits(f, args) == Fits(f[2..], args)
    ensures Fits(f, args) ==> Expand(f, args) == Expand(f[2..], args)
  {
  }

  lemma ConversionFirst(f: string, args: seq<Arg>)
    requires |f| >= 2 && f[0] == '%' && Conversion(f[1]) && args != [] && !args[0].NullText?
    ensures Uses(f) == Uses(f[2..]) + 1 && Fits(f, args) == (ArgFits(f[1], args[0]) && Fits(f[2..], args[1..]))
    ensures Fits(f, args) ==> Expand(f, args) == Then(Convert(f[1], args[0]), Expand(f[2..], args[1..]))
  {
    hide Convert;
  }

  lemma FitsFirst(f: string, args: seq<Arg>)
    requires Fits(f, args) && f != "" && f[0] == '%'
    ensures |f| >= 2 && (Conversion(f[1]) ==> args != [] && (args[0].NullText? ==> Expand(f, args).halted))
  {
  }

  /** Formatting is compositional: two formats one after the other expand to their expansions, one after the other. */
  lemma {:induction false} ExpandAppend(f: string, g: string, args: seq<Arg>, more: seq<Arg>)
    requires Fits(f, args) && Fits(g, more) && Uses(f) == |args| && !Expand(f, args).halted
    ensures Fits(f + g, args + more)
    ensures Expand(f + g, args + more) == Then(Expand(f, args).text, Expand(g, more))
    decreases |f|
  {
    hide Convert, Fits, Expand, Uses, Conversion, ArgFits;
    var fg, all := f + g, args + more;
    if f == "" {
      NoFormat(args);
      assert fg == g && all == more;
    } else if f[0] != '%' {
      PlainFirst(f, args);
      PlainFirst(fg, all);
      assert fg[1..] == f[1..] + g && fg[..1] == f[..1];
      ExpandAppend(f[1..], g, args, more);
      ThenStep(f[..1], Expand(f[1..], args).text, Expand(g, more));
    } else {
      FitsFirst(f, args);
      assert fg[2..] == f[2..] + g && fg[1] == f[1];
      if Conversion(f[1]) {
        ConversionFirst(f, args);
        ConversionFirst(fg, all);
        assert all[0] == args[0] && all[1..] == args[1..] + more;
        ExpandAppend(f[2..], g, args[1..], more);
        ThenStep(Convert(f[1], args[0]), Expand(f[2..], args[1..]).text, Expand(g, more));
      } else {
        UnknownFirst(f, args);
        UnknownFirst(fg, all);
        ExpandAppend(f[2..], g, args, more);
      }
    }
  }

  // ----- What each conversion prints --------------------------------------------------------------------

  /** Two's complement. */
  lemma SignedIs(w: nat)
    requires w < WORDS
    ensures -0x8000_0000 <= Signed(w) < 0x8000_0000 && (Signed(w) - w) % 0x1_0000_0000 == 0
  {
  }

  lemma OneConversion(f: string, c: char, arg: Arg)
    requires f == ['%', c] && Conversion(c) && ArgFits(c, arg) && !arg.NullText?
    ensures Fits(f, [arg]) && Expand(f, [arg]) == Expansion(Convert(c, arg), false)
  {
    hide Convert;
    assert f[2..] == "" && [arg][1..] == [];
    assert Expand("", []) == Expansion("", false);
    assert Convert(c, arg) + "" == Convert(c, arg);
  }

  /** %x prints a word's value in base 16, with no leading zero. */
  lemma HexPrinted(w: nat)
    requires w < WORDS
    ensures Fits("%x", [Word(w)]) && !Expand("%x", [Word(w)]).halted
    ensures var s := Expand("%x", [Word(w)]).text;
            && s != "" && (forall c <- s :: '0' <= c <= '9' || 'A' <= c <= 'F')
            && Parse(s, 16) == w && (s[0] == '0' ==> s == "0")
  {
    hide Digits, Parse;
    OneConversion("%x", 'x', Word(w));
    DigitsParse(w, 16);
    ZeroDigits(16);
  }

  lemma ZeroDigits(base: nat)
    requires IsBase(base)
    ensures Digits(0, base) == "0"
  {
    DigitsOne(0, base);
  }

  /** %d prints the signed value in base 10: a sign exactly for a negative one, and no leading zero. */
  lemma DecimalPrinted(w: nat)
    requires w < WORDS
    ensures Fits("%d", [Word(w)]) && !Expand("%d", [Word(w)]).halted
    ensures var s := Expand("%d", [Word(w)]).text;
            var digits := if Signed(w) < 0 && s != "" then s[1..] else s;
            && s != "" && (s[0] == '-' <==> Signed(w) < 0)
            && digits != "" && (forall c <- digits :: '0' <= c <= '9') && (digits[0] == '0' ==> digits == "0")
            && Parse(digits, 10) == if Signed(w) < 0 then -Signed(w) else Signed(w)
  {
    hide Digits, Parse;
    OneConversion("%d", 'd', Word(w));
    var v := if Signed(w) < 0 then -Signed(w) else Signed(w);
    DigitsParse(v, 10);
    ZeroDigits(10);
    if Signed(w) < 0 {
      assert ("-" + Digits(v, 10))[1..] == Digits(v, 10);
    } else {
      assert Digits(v, 10)[0] in Digits(v, 10);
    }
  }

  /** %s prints the string, and stops the machine on NULL; %c prints the low byte. */
  lemma TextPrinted(t: string, w: nat)
    requires CString(t) && w < WORDS
    ensures Fits("%s", [Text(t)]) && Expand("%s", [Text(t)]) == Expansion(t, false)
    ensures Fits("%s", [NullText]) && Expand("%s", [NullText]) == Expansion("", true)
    ensures Fits("%c", [Word(w)]) && Expand("%c", [Word(w)]) == Expansion([(w % 256) as char], false)
  {
    OneConversion("%s", 's', Text(t));
    OneConversion("%c", 'c', Word(w));
  }

  /** A format without % prints itself, and % with any other letter prints nothing. */
  lemma {:induction false} PlainPrinted(f: string, args: seq<Arg>)
    requires forall c <- f :: c != '%'
    ensures Fits(f, args) && Expand(f, args) == Expansion(f, false)
  {
    if f != "" {
      assert f[0] in f && forall c <- f[1..] :: c in f;
      PlainPrinted(f[1..], args);
      assert f == f[..1] + f[1..];
    }
  }

  lemma OtherPrinted(c: char)
    requires c !in "xscd"
    ensures Fits(['%', c], []) && Expand(['%', c], []) == Expansion("", false)
  {
    assert ['%', c][2..] == "";
    assert "xscd"[0] == 'x' && "xscd"[1] == 's' && "xscd"[2] == 'c' && "xscd"[3] == 'd';
  }

  lemma NoFormat(args: seq<Arg>)
    ensures Fits("", args) && Expand("", args) == Expansion("", false) && Uses("") == 0
  {
  }

  /** A %c argument whose low byte is zero is among those printed. */
  predicate PrintsNul(format: string, args: seq<Arg>)
    requires Fits(format, args)
  {
    if format == "" then false
    else if format[0] != '%' then PrintsNul(format[1..], args)
    else if !Conversion(format[1]) then PrintsNul(format[2..], args)
    else if args[0].NullText? then false
    else (format[1] == 'c' && args[0].w % 256 == 0) || PrintsNul(format[2..], args[1..])
  }

  lemma ConvertNul(c: char, arg: Arg)
    requires Conversion(c) && ArgFits(c, arg) && !arg.NullText?
    ensures NUL in Convert(c, arg) <==> c == 'c' && arg.w % 256 == 0
  {
    hide Digits;
    if arg.Word? {
      DigitsParse(arg.w, 16);
      if Signed(arg.w) < 0 {
        DigitsParse(-Signed(arg.w), 10);
      } else {
        DigitsParse(arg.w, 10);
      }
      if c == 'c' {
        CharNul(arg.w % 256);
      }
    }
  }

  lemma CharNul(n: nat)
    requires n < 256
    ensures n as char == NUL <==> n == 0
  {
  }

  /** The text holds a NUL exactly when a zero character was asked for. */
  lemma {:induction false} TextNul(format: string, args: seq<Arg>)
    requires Fits(format, args) && CString(format)
    ensures NUL in Expand(format, args).text <==> PrintsNul(format, args)
    decreases |format|
  {
    hide Convert;
    if format == "" {
    } else if format[0] != '%' {
      TextNul(format[1..], args);
      assert format[0] in format;
    } else if !Conversion(format[1]) {
      TextNul(format[2..], args);
    } else if !args[0].NullText? {
      ConvertNul(format[1], args[0]);
      TextNul(format[2..], args[1..]);
    }
  }

  function FirstNul(s: string): (n: nat)
    ensures n <= |s| && NUL !in s[..n] && (n < |s| ==> s[n] == NUL)
  {
    if s == "" || s[0] == NUL then 0
    else
      var n := 1 + FirstNul(s[1..]);
      assert s[..n] == s[..1] + s[1..][..n - 1];
      n
  }

  /** vsprintf's result is the length of the expansion exactly when no zero character was asked for. */
  lemma LengthReturned(format: string, args: seq<Arg>)
    requires Fits(format, args) && CString(format)
    ensures FirstNul(Expand(format, args).text) == |Expand(format, args).text| <==> !PrintsNul(format, args)
  {
    hide Expand, Fits, PrintsNul;
    TextNul(format, args);
    var text := Expand(format, args).text;
    assert text[..|text|] == text;
  }

  /** The two lengths differ on the format "%c" with a zero character. */
  lemma LengthDiffers()
    ensures Fits("%c", [Word(0)]) && CString("%c")
    ensures |Expand("%c", [Word(0)]).text| == 1 && FirstNul(Expand("%c", [Word(0)]).text) == 0
  {
    assert "%c"[2..] == "";
    assert [Word(0)][1..] == [];
  }

  // ----- The code -------------------------------------------------------------------------------------

  /** strlen of the string at the start of a buffer that holds a NUL. */
  method StrLen(str: array<char>) returns (n: nat)
    requires NUL in str[..]
    ensures n == FirstNul(str[..])
  {
    n := 0;
    while str[n] != NUL
      invariant n < str.Length && NUL !in str[..n] && NUL in str[..]
      decreases str.Length - n
    {
      n := n + 1;
    }
    FirstNulIs(str[..], n);
  }

  lemma FirstNulIs(s: string, n: nat)
    requires n < |s| && s[n] == NUL && NUL !in s[..n]
    ensures FirstNul(s) == n
  {
    var k := FirstNul(s);
    assert forall i | 0 <= i < k :: s[..k][i] == s[i];
    assert forall i | 0 <= i < n :: s[..n][i] == s[i];
  }

  /** dst .. dst + |text| now holds text and nothing else has changed. */
  ghost predicate Wrote(before: string, now: string, dst: nat, text: string) {
    dst + |text| <= |before| && now == before[..dst] + text + before[dst + |text|..]
  }

  lemma WroteNothing(s: string, dst: nat)
    requires dst <= |s|
    ensures Wrote(s, s, dst, "")
  {
  }

  lemma WroteOne(s: string, dst: nat, c: char)
    requires dst < |s|
    ensures Wrote(s, s[dst := c], dst, [c])
  {
  }

  lemma WroteMore(s0: string, s1: string, s2: string, dst: nat, t1: string, t2: string)
    requires Wrote(s0, s1, dst, t1) && Wrote(s1, s2, dst + |t1|, t2)
    ensures Wrote(s0, s2, dst, t1 + t2)
  {
    assert s1[..dst + |t1|] == s0[..dst] + t1;
    assert s1[dst + |t1| + |t2|..] == s0[dst + |t1| + |t2|..];
    assert s2 == (s0[..dst] + t1) + t2 + s0[dst + |t1| + |t2|..];
  }

  /** strcpy, without a terminator. */
  method StrCpy(str: array<char>, dst: nat, src: string)
    requires dst + |src| <= str.Length
    modifies str
    ensures Wrote(old(str[..]), str[..], dst, src)
  {
    hide Wrote;
    var i := 0;
    WroteNothing(str[..], dst);
    assert src[..0] == "";
    while i < |src|
      invariant i <= |src|
      invariant Wrote(old(str[..]), str[..], dst, src[..i])
    {
      ghost var before := str[..];
      str[dst + i] := src[i];
      assert str[..] == before[dst + i := src[i]];
      WroteOne(before, dst + i, src[i]);
      WroteMore(old(str[..]), before, str[..], dst, src[..i], [src[i]]);
      assert src[..i + 1] == src[..i] + [src[i]];
      i := i + 1;
    }
    assert src[..i] == src;
  }

  /** The last digit, and what is before it. */
  function Last(value: nat, base: nat): nat
    requires IsBase(base)
  {
    value % base
  }

  function Front(value: nat, base: nat): nat
    requires IsBase(base)
  {
    value / base
  }

  ghost function High(value: nat, base: nat): string
    requires IsBase(base)
  {
    if Front(value, base) == 0 then "" else Digits(Front(value, base), base)
  }

  lemma DigitsSplit(value: nat, base: nat)
    requires IsBase(base)
    ensures Last(value, base) < 36 && Digits(value, base) == High(value, base) + [DigitChar(Last(value, base))]
    ensures Front(value, base) != 0 ==> Front(value, base) < value
  {
    if value / base != 0 {
      var _ := Quotient(value, base);
    }
  }

  /** One digit: '0' to '9', then 'A' on. */
  method PutDigit(str: array<char>, at: nat, m: nat)
    requires m < 36 && at < str.Length
    modifies str
    ensures str[..] == old(str[..])[at := DigitChar(m)]
  {
    if m < 10 {
      str[at] := '0' + m as char;
    } else {
      str[at] := 'A' + (m - 10) as char;
    }
  }

  /** itoa: the digits go to the cursor, which moves past them. */
  method Itoa(value: nat, str: array<char>, cursor: nat, base: nat) returns (next: nat)
    requires IsBase(base) && cursor + |Digits(value, base)| <= str.Length
    modifies str
    ensures next == cursor + |Digits(value, base)| && Wrote(old(str[..]), str[..], cursor, Digits(value, base))
    decreases value
  {
    hide Wrote, Digits, DigitChar, Last, Front;
    DigitsSplit(value, base);
    var m, i := Last(value, base), Front(value, base);
    ghost var high := High(value, base);
    next := cursor;
    if i != 0 {
      next := Itoa(i, str, cursor, base);
    } else {
      WroteNothing(str[..], cursor);
    }
    ghost var before := str[..];
    assert Wrote(old(str[..]), before, cursor, high);
    PutDigit(str, next, m);
    WroteOne(before, next, DigitChar(m));
    WroteMore(old(str[..]), before, str[..], cursor, high, [DigitChar(m)]);
    next := next + 1;
  }

  /** The %d conversion: the magnitude of a negative word is its complement, also for the least value. */
  method PutDecimal(str: array<char>, dst: nat, w: nat) returns (next: nat)
    requires w < WORDS && dst + |Decimal(w)| <= str.Length
    modifies str
    ensures next == dst + |Decimal(w)| && Wrote(old(str[..]), str[..], dst, Decimal(w))
  {
    hide Wrote, Digits, Decimal;
    DecimalIs(w);
    next := dst;
    var v := w;
    ghost var sign := "";
    WroteNothing(str[..], dst);
    if v >= WORDS / 2 {
      sign := "-";
      WroteOne(str[..], dst, '-');
      str[next] := '-';
      assert str[..] == old(str[..])[dst := '-'];
      next := next + 1;
      v := (WORDS - v) % WORDS;
    }
    ghost var before := str[..];
    next := Itoa(v, str, next, 10);
    WroteMore(old(str[..]), before, str[..], dst, sign, Digits(v, 10));
  }

  lemma DecimalIs(w: nat)
    requires w < WORDS
    ensures Decimal(w) == if w >= WORDS / 2 then "-" + Digits((WORDS - w) % WORDS, 10) else "" + Digits(w, 10)
  {
  }

  /** One conversion. */
  method PutArg(str: array<char>, dst: nat, c: char, arg: Arg) returns (next: nat)
    requires Conversion(c) && ArgFits(c, arg) && !arg.NullText? && dst + |Convert(c, arg)| <= str.Length
    modifies str
    ensures next == dst + |Convert(c, arg)| && Wrote(old(str[..]), str[..], dst, Convert(c, arg))
  {
    hide Wrote, Digits, Decimal;
    next := dst;
    if c == 'x' {
      next := Itoa(arg.w, str, next, 16);
    } else if c == 's' {
      StrCpy(str, next, arg.s);
      next := next + |arg.s|;
    } else if c == 'c' {
      str[next] := (arg.w % 256) as char;
      assert str[..] == old(str[..])[dst := (arg.w % 256) as char];
      WroteOne(old(str[..]), dst, (arg.w % 256) as char);
      next := next + 1;
    } else {
      next := PutDecimal(str, next, arg.w);
    }
  }

  /**
    vsprintf into a zeroed buffer with room for the expansion and its NUL: the buffer holds exactly
    the expansion, and the result is its length up to the first NUL in it.
   */
  method Vsprintf(str: array<char>, format: string, args: seq<Arg>) returns (r: Outcome<nat>)
    requires CString(format) && Fits(format, args)
    requires |Expand(format, args).text| < str.Length && forall i :: 0 <= i < str.Length ==> str[i] == NUL
    modifies str
    ensures var e := Expand(format, args);
            && str[..|e.text|] == e.text && (forall i :: |e.text| <= i < str.Length ==> str[i] == NUL)
            && r == if e.halted then Panic(NullPointer) else Ok(FirstNul(e.text))
  {
    hide Convert, FirstNul, Fits, Expand, Wrote, Conversion, ArgFits, Then;
    var dst: nat, src: nat, ap: nat := 0, 0, 0;
    ghost var e := Expand(format, args);
    Beginning(format, args, str[..]);
    while src < |format|
      invariant src <= |format| && ap <= |args| && dst <= |e.text| < str.Length
      invariant Fits(format[src..], args[ap..])
      invariant e == Then(str[..dst], Expand(format[src..], args[ap..]))
      invariant forall i :: dst <= i < str.Length ==> str[i] == NUL
    {
      ghost var done := str[..dst];
      if format[src] != '%' {
        PlainTurn(format, args, src, ap, done, e);
        str[dst] := format[src];
        dst, src := dst + 1, src + 1;
        assert str[..dst] == done + [format[src - 1]];
        continue;
      }
      ConversionTurn(format, args, src, ap, done, e);
      src := src + 1;
      if Conversion(format[src]) {
        if args[ap].NullText? {
          return Panic(NullPointer);
        }
        ghost var before := str[..];
        dst := PutArg(str, dst, format[src], args[ap]);
        WroteEnd(before, str[..], |done|, Convert(format[src], args[ap]));
        ap := ap + 1;
      }
      src := src + 1;
    }
    Ending(format, args, src, ap, str[..dst], e);
    NulEnds(str[..], dst);
    var n := StrLen(str);
    r := Ok(n);
  }

  lemma Beginning(format: string, args: seq<Arg>, s: string)
    requires Fits(format, args)
    ensures format[0..] == format && args[0..] == args && Expand(format, args) == Then(s[..0], Expand(format[0..], args[0..]))
  {
  }

  lemma Ending(format: string, args: seq<Arg>, src: nat, ap: nat, done: string, e: Expansion)
    requires src == |format| && ap <= |args| && Fits(format[src..], args[ap..]) && e == Then(done, Expand(format[src..], args[ap..]))
    ensures e == Expansion(done, false)
  {
  }

  /** One turn of the loop on a plain character. */
  lemma PlainTurn(format: string, args: seq<Arg>, src: nat, ap: nat, done: string, e: Expansion)
    requires src < |format| && ap <= |args| && format[src] != '%' && Fits(format[src..], args[ap..])
    requires e == Then(done, Expand(format[src..], args[ap..]))
    ensures Fits(format[src + 1..], args[ap..]) && |done| + 1 <= |e.text|
    ensures e == Then(done + [format[src]], Expand(format[src + 1..], args[ap..]))
  {
    hide Convert;
    var f, a := format[src..], args[ap..];
    assert f[1..] == format[src + 1..] && f[..1] == [format[src]];
    ThenStep(done, f[..1], Expand(f[1..], a));
  }

  /** One turn on a %. */
  lemma ConversionTurn(format: string, args: seq<Arg>, src: nat, ap: nat, done: string, e: Expansion)
    requires src < |format| && ap <= |args| && format[src] == '%' && Fits(format[src..], args[ap..])
    requires e == Then(done, Expand(format[src..], args[ap..]))
    ensures src + 1 < |format|
    ensures !Conversion(format[src + 1]) ==>
              Fits(format[src + 2..], args[ap..]) && e == Then(done, Expand(format[src + 2..], args[ap..]))
    ensures Conversion(format[src + 1]) ==> ap < |args| && ArgFits(format[src + 1], args[ap])
    ensures Conversion(format[src + 1]) && args[ap].NullText? ==> e == Expansion(done, true)
    ensures Conversion(format[src + 1]) && !args[ap].NullText? ==>
              var t := Convert(format[src + 1], args[ap]);
              && |done| + |t| <= |e.text| && Fits(format[src + 2..], args[ap + 1..])
              && e == Then(done + t, Expand(format[src + 2..], args[ap + 1..]))
  {
    hide Convert;
    var f, a := format[src..], args[ap..];
    assert f[1] == format[src + 1] && f[2..] == format[src + 2..];
    if Conversion(f[1]) {
      assert a[0] == args[ap] && a[1..] == args[ap + 1..];
      if !a[0].NullText? {
        ThenStep(done, Convert(f[1], a[0]), Expand(f[2..], a[1..]));
      }
    }
  }

  lemma WroteEnd(before: string, s: string, dst: nat, t: string)
    requires Wrote(before, s, dst, t)
    ensures |s| == |before| && dst + |t| <= |s| && s[..dst + |t|] == before[..dst] + t
    ensures forall i :: dst + |t| <= i < |s| ==> s[i] == before[i]
  {
  }

  lemma ThenStep(a: string, b: string, rest: Expansion)
    ensures Then(a, Then(b, rest)) == Then(a + b, rest)
  {
    assert a + (b + rest.text) == (a + b) + rest.text;
  }

  /** A text followed by a NUL is as long, up to its first NUL, as with the NUL. */
  lemma NulEnds(s: string, n: nat)
    requires n < |s| && s[n] == NUL
    ensures NUL in s && FirstNul(s) == FirstNul(s[..n])
  {
    var k := FirstNul(s[..n]);
    assert s[..n][..k] == s[..k];
    assert k < n ==> s[..n][k] == s[k];
    FirstNulIs(s, k);
  }
}
