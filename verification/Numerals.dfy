/** printf("%d") and printf("%x") on one side, strtol/strtoul with base 0 on the other. */
module Numerals {
  import opened Wrappers

  const INT_MAX: int := 0x7FFF_FFFF
  const UINT_MAX: int := 0xFFFF_FFFF

  type Base = b: int | b == 8 || b == 10 || b == 16 witness 10

  /** n split into its leading digits and its last one. */
  function Split(n: nat, base: Base): (r: (nat, nat))
    ensures r.1 < base && Append(r.0, base, r.1) == n
    ensures r.0 <= n && (n != 0 ==> r.0 < n) && (r.0 == 0 <==> n < base)
  {
    match base
    case 8 => (n / 8, n % 8)
    case 10 => (n / 10, n % 10)
    case _ => (n / 16, n % 16)
  }

  function Append(acc: nat, base: Base, d: nat): nat
  {
    match base
    case 8 => 8 * acc + d
    case 10 => 10 * acc + d
    case _ => 16 * acc + d
  }

  function DigitChar(d: nat): (c: char)
    requires d < 16
    ensures '0' <= c <= '9' || 'a' <= c <= 'f'
    ensures DigitOf(c) == Some(d) && (c == '0' <==> d == 0)
  {
    if d < 10 then ('0' as int + d) as char else ('a' as int + (d - 10)) as char
  }

  function DigitOf(c: char): Option<nat>
  {
    if '0' <= c <= '9' then Some(c as int - '0' as int)
    else if 'a' <= c <= 'f' then Some(c as int - 'a' as int + 10)
    else if 'A' <= c <= 'F' then Some(c as int - 'A' as int + 10)
    else None
  }

  predicate IsDigit(c: char, base: Base)
  {
    DigitOf(c).Some? && DigitOf(c).value < base
  }

  predicate StartsWithDigit(s: string, base: Base)
  {
    s != [] && IsDigit(s[0], base)
  }

  /** The digits of n, most significant first, without padding. */
  function Digits(n: nat, base: Base): (s: string)
    ensures s != [] && (forall i | 0 <= i < |s| :: IsDigit(s[i], base))
    ensures n != 0 ==> s[0] != '0'
    ensures forall i | 0 <= i < |s| :: '0' <= s[i] <= '9' || 'a' <= s[i] <= 'f'
  {
    var (lead, last) := Split(n, base);
    if lead == 0 then [DigitChar(last)] else Digits(lead, base) + [DigitChar(last)]
  }

  /** "%d" */
  function Decimal(i: int): string
  {
    if i < 0 then ['-'] + Digits(-i, 10) else Digits(i, 10)
  }

  /** The longest run of digits at the front of s, appended to acc. */
  function ReadDigits(s: string, base: Base, acc: nat): nat
  {
    if StartsWithDigit(s, base) then ReadDigits(s[1..], base, Append(acc, base, DigitOf(s[0]).value)) else acc
  }

  predicate IsSpace(c: char)
  {
    c == ' ' || '\t' <= c <= '\r'
  }

  function SkipSpaces(s: string): string
  {
    if s != [] && IsSpace(s[0]) then SkipSpaces(s[1..]) else s
  }

  /** Magnitude read by strtol with base 0 after blanks and sign; None when there is no digit. */
  function ReadMagnitude(s: string): Option<nat>
  {
    if |s| > 2 && s[0] == '0' && s[1] in "xX" && IsDigit(s[2], 16) then Some(ReadDigits(s[2..], 16, 0))
    else if s != [] && s[0] == '0' then Some(ReadDigits(s, 8, 0))
    else if StartsWithDigit(s, 10) then Some(ReadDigits(s, 10, 0))
    else None
  }

  function ReadSigned(s: string): Option<int>
  {
    var t := SkipSpaces(s);
    if t != [] && t[0] in "+-" then
      match ReadMagnitude(t[1..])
      case None => None
      case Some(m) => var v: int := m; Some(if t[0] == '-' then -v else v)
    else
      match ReadMagnitude(t)
      case None => None
      case Some(m) => Some(m)
  }

  /** std::stoi(s, nullptr, 0); None stands for both of the exceptions it throws. */
  function Stoi(s: string): Option<int>
  {
    match ReadSigned(s)
    case None => None
    case Some(v) => if -INT_MAX - 1 <= v <= INT_MAX then Some(v) else None
  }

  /** std::stoul(s, nullptr, 0) with a 32-bit unsigned long: a minus sign wraps. */
  function Stoul(s: string): (r: Option<nat>)
    ensures r.Some? ==> r.value <= UINT_MAX
  {
    match ReadSigned(s)
    case None => None
    case Some(v) =>
      if 0 <= v <= UINT_MAX then Some(v)
      else if -UINT_MAX <= v < 0 then Some(v + UINT_MAX + 1)
      else None
  }

  // ------------------------------------------------------------------ print, then read

  lemma {:induction false} ReadDigitsSplit(a: string, rest: string, base: Base, acc: nat)
    requires forall i | 0 <= i < |a| :: IsDigit(a[i], base)
    ensures ReadDigits(a + rest, base, acc) == ReadDigits(rest, base, ReadDigits(a, base, acc))
  {
    if a == [] {
      assert a + rest == rest;
    } else {
      assert (a + rest)[1..] == a[1..] + rest;
      ReadDigitsSplit(a[1..], rest, base, Append(acc, base, DigitOf(a[0]).value));
    }
  }

  lemma {:induction false} ReadPrinted(n: nat, base: Base)
    ensures ReadDigits(Digits(n, base), base, 0) == n
  {
    var (lead, last) := Split(n, base);
    assert [DigitChar(last)][1..] == [];
    assert ReadDigits([DigitChar(last)], base, lead) == n;
    if lead != 0 {
      ReadDigitsSplit(Digits(lead, base), [DigitChar(last)], base, 0);
      ReadPrinted(lead, base);
    }
  }

  lemma ReadPrintedThen(n: nat, base: Base, rest: string)
    requires !StartsWithDigit(rest, base)
    ensures ReadDigits(Digits(n, base) + rest, base, 0) == n
  {
    ReadPrinted(n, base);
    ReadDigitsSplit(Digits(n, base), rest, base, 0);
  }

  lemma ReadMagnitudePrinted(m: nat, rest: string)
    requires rest == [] || rest[0] == ']'
    ensures ReadMagnitude(Digits(m, 10) + rest) == Some(m)
  {
    var d := Digits(m, 10);
    ReadPrintedThen(m, 10, rest);
    var t := d + rest;
    assert t[0] == d[0];
    if m == 0 {
      assert d == ['0'];
      assert t[1..] == rest;
      assert ReadDigits(t, 8, 0) == ReadDigits(rest, 8, 0) == 0;
    }
  }

  /** Reading back what "%d" printed gives the number, at the end of the text or before a ']'. */
  lemma ReadDecimal(i: int, rest: string)
    requires rest == [] || rest[0] == ']'
    requires -INT_MAX - 1 <= i <= INT_MAX
    ensures Stoi(Decimal(i) + rest) == Some(i)
  {
    var m := if i < 0 then -i else i;
    ReadMagnitudePrinted(m, rest);
    var t := Digits(m, 10) + rest;
    assert t[0] == Digits(m, 10)[0];
    hide ReadMagnitude, Digits;
    assert Decimal(i) + rest == if i < 0 then ['-'] + t else t;
    assert (['-'] + t)[1..] == t;
  }

  /** Decimal names are distinct for distinct numbers. */
  lemma DecimalInjective(i: int, j: int)
    requires -INT_MAX - 1 <= i <= INT_MAX && -INT_MAX - 1 <= j <= INT_MAX
    requires Decimal(i) == Decimal(j)
    ensures i == j
  {
    ReadDecimal(i, []);
    ReadDecimal(j, []);
    assert Decimal(i) + [] == Decimal(i) == Decimal(j) + [];
  }

  lemma HexPrefix(u: string)
    requires StartsWithDigit(u, 16)
    ensures ReadSigned("0x" + u) == Some(ReadDigits(u, 16, 0))
  {
    var t := "0x" + u;
    assert t[0] == '0' && t[1] == 'x' && t[2] == u[0] && t[2..] == u;
    assert SkipSpaces(t) == t;
  }

  /** Reading back what "0x%x" printed gives the number. */
  lemma ReadHex(n: nat, rest: string)
    requires rest == [] || rest[0] == ']'
    requires n <= UINT_MAX
    ensures Stoul("0x" + Digits(n, 16) + rest) == Some(n)
  {
    hide Digits, ReadDigits, ReadSigned;
    var base: Base := 16;
    var u := Digits(n, base) + rest;
    ReadPrintedThen(n, base, rest);
    assert u[0] == Digits(n, base)[0];
    HexPrefix(u);
    assert "0x" + u == "0x" + Digits(n, base) + rest;
  }

  // ------------------------------------------------------------------ what is printed and read

  lemma DigitIs(d: nat)
    requires d < 16
    ensures DigitChar(d) == "0123456789abcdef"[d]
    ensures DigitOf("0123456789abcdef"[d]) == DigitOf("0123456789ABCDEF"[d]) == Some(d)
  {
  }

  /** No other characters are digits. */
  lemma DigitsOnly(c: char)
    ensures c !in "0123456789abcdefABCDEF" ==> DigitOf(c).None?
  {
    var all := "0123456789abcdefABCDEF";
    if '0' <= c <= '9' {
      assert all[c as int - '0' as int] == c;
    } else if 'a' <= c <= 'f' {
      assert all[c as int - 'a' as int + 10] == c;
    } else if 'A' <= c <= 'F' {
      assert all[c as int - 'A' as int + 16] == c;
    }
  }

  /** One more digit at the end multiplies by the base and adds the digit. */
  lemma DigitsAre(n: nat, d: nat)
    ensures d < 10 ==> Digits(10 * n + d, 10) == (if n == 0 then [] else Digits(n, 10)) + ["0123456789"[d]]
    ensures d < 16 ==> Digits(16 * n + d, 16) == (if n == 0 then [] else Digits(n, 16)) + ["0123456789abcdef"[d]]
  {
    if d < 16 {
      DigitIs(d);
      assert "0123456789" == "0123456789abcdef"[..10];
      assert d < 10 ==> Split(10 * n + d, 10) == (n, d);
      assert Split(16 * n + d, 16) == (n, d);
      hide DigitChar, Split;
    }
  }

  lemma DecimalIs(i: int)
    ensures Decimal(i) == if i < 0 then "-" + Digits(-i, 10) else Digits(i, 10)
  {
  }

  /** Blanks and a plus sign in front of a number are passed over. */
  lemma LeadIsSkipped(c: char, s: string)
    ensures c in " \t\n\r" || c as int in {0x0b, 0x0c} ==> ReadSigned([c] + s) == ReadSigned(s)
    ensures StartsWithDigit(s, 10) ==> ReadSigned("+" + s) == ReadSigned(s)
    ensures StartsWithDigit(s, 10) && ReadSigned(s).Some? ==> ReadSigned("-" + s) == Some(-ReadSigned(s).value)
  {
    assert ([c] + s)[1..] == s && ("+" + s)[1..] == s && ("-" + s)[1..] == s;
    hide ReadMagnitude;
  }

  /** With base 0, "0x" or "0X" introduces a hexadecimal number. */
  lemma ReadsHex(prefix: string, n: nat, rest: string)
    requires prefix in {"0x", "0X"} && !StartsWithDigit(rest, 16)
    ensures ReadMagnitude(prefix + (Digits(n, 16) + rest)) == Some(n)
  {
    ReadPrintedThen(n, 16, rest);
    assert (Digits(n, 16) + rest)[0] == Digits(n, 16)[0];
    hide ReadMagnitude, Digits, ReadDigits;
    HexMagnitude(prefix, Digits(n, 16) + rest);
  }

  /** A 0 introduces an octal one. */
  lemma ReadsOctal(n: nat, rest: string)
    requires !StartsWithDigit(rest, 8)
    ensures ReadMagnitude("0" + (Digits(n, 8) + rest)) == Some(n)
  {
    ReadPrintedThen(n, 8, rest);
    assert (Digits(n, 8) + rest)[0] == Digits(n, 8)[0];
    hide ReadMagnitude, Digits, ReadDigits;
    OctalMagnitude(Digits(n, 8) + rest);
  }

  /** Without hexadecimal digits behind it, the x is not part of the number, which is 0. */
  lemma ReadsZero(rest: string)
    requires !StartsWithDigit(rest, 8) && (rest != "" && rest[0] in "xX" ==> !StartsWithDigit(rest[1..], 16))
    ensures ReadMagnitude("0" + rest) == Some(0)
  {
    var t := "0" + rest;
    assert t[1..] == rest;
    assert |t| > 2 ==> rest[1] == t[2] == rest[1..][0];
    assert ReadDigits(rest, 8, 0) == 0;
    assert ReadDigits(t, 8, 0) == ReadDigits(rest, 8, 0);
  }

  lemma HexMagnitude(prefix: string, u: string)
    requires prefix in {"0x", "0X"} && StartsWithDigit(u, 16)
    ensures ReadMagnitude(prefix + u) == Some(ReadDigits(u, 16, 0))
  {
    var t := prefix + u;
    assert t[0] == '0' && t[1] == prefix[1] && t[2] == u[0] && t[2..] == u;
  }

  lemma OctalMagnitude(u: string)
    requires StartsWithDigit(u, 8)
    ensures ReadMagnitude("0" + u) == Some(ReadDigits(u, 8, 0))
  {
    var t := "0" + u;
    assert t[0] == '0' && t[1] == u[0] && t[1..] == u;
  }

  lemma ReadsDecimal(i: int)
    ensures ReadSigned(Decimal(i)) == Some(i)
  {
    var m := if i < 0 then -i else i;
    ReadMagnitudePrinted(m, []);
    var d := Digits(m, 10);
    assert d + [] == d && (['-'] + d)[1..] == d;
    hide ReadMagnitude, Digits;
  }

  /** Text that does not start with a digit after blanks and sign is refused, and so is what 32 bits cannot hold. */
  lemma Refused(s: string, i: int)
    ensures s == [] || (s[0] !in " \t\n\r" && s[0] as int !in {0x0b, 0x0c} && s[0] !in "+-0123456789") ==>
              Stoi(s).None? && Stoul(s).None?
    ensures Stoi(Decimal(i)) == if -0x8000_0000 <= i < 0x8000_0000 then Some(i) else None
    ensures Stoul(Decimal(i)) == if 0 <= i < 0x1_0000_0000 then Some(i)
                                 else if -0x1_0000_0000 < i < 0 then Some(i + 0x1_0000_0000) else None
  {
    ReadsDecimal(i);
    hide Decimal;
  }
}
