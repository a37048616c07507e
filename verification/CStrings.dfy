/**
 C strings in a block of memory, and the decimal conversions of printf ("%d"), atol and atoi.
 */
module CStrings {

  const NUL: char := '\0'

  /** The C string that starts at offset p: the bytes up to the first NUL, or up to the end of the block. */
  function CStringAt(mem: string, p: nat): (s: string)
    requires p <= |mem|
    ensures p + |s| <= |mem| && mem[p..p + |s|] == s
    ensures NUL !in s
    ensures p + |s| < |mem| ==> mem[p + |s|] == NUL
    decreases |mem| - p
  {
    if p == |mem| || mem[p] == NUL then "" else [mem[p]] + CStringAt(mem, p + 1)
  }

  /** The end of a C string is where its first NUL is. */
  lemma {:induction false} CStringIs(mem: string, p: nat, s: string)
    requires p + |s| <= |mem| && mem[p..p + |s|] == s
    requires NUL !in s
    requires p + |s| < |mem| ==> mem[p + |s|] == NUL
    ensures CStringAt(mem, p) == s
    decreases |s|
  {
    if s != "" {
      assert mem[p] == s[0];
      CStringIs(mem, p + 1, s[1..]);
    }
  }

  /** n blanks, as memset writes them. */
  function Blanks(n: nat): (s: string)
    ensures |s| == n && forall i :: 0 <= i < n ==> s[i] == ' '
  {
    seq(n, _ => ' ')
  }

  // ---------- decimal numbers ----------

  const INT_MIN: int := -0x8000_0000
  const INT_MAX: int := 0x7fff_ffff
  const LONG_MIN: int := -0x8000_0000_0000_0000
  const LONG_MAX: int := 0x7fff_ffff_ffff_ffff

  predicate IsInt(n: int) {
    INT_MIN <= n <= INT_MAX
  }

  predicate IsDigit(c: char) {
    '0' <= c <= '9'
  }

  predicate IsSpace(c: char) {
    c == ' ' || '\t' <= c <= '\r'
  }

  predicate AllDigits(s: string) {
    forall c :: c in s ==> IsDigit(c)
  }

  function Digits(n: nat): (s: string)
    ensures s != "" && AllDigits(s)
  {
    if n < 10 then [n as char + '0'] else Digits(n / 10) + [(n % 10) as char + '0']
  }

  /** What printf writes for "%d". */
  function Decimal(n: int): (s: string)
    ensures s != "" && (IsDigit(s[0]) || s[0] == '-')
    ensures forall c :: c in s ==> IsDigit(c) || c == '-'
  {
    if n < 0 then "-" + Digits(-n) else Digits(n)
  }

  /** The value of the leading digits of s, appended to the digits of acc. */
  function DigitsValue(s: string, acc: nat): nat {
    if s == "" || !IsDigit(s[0]) then acc
    else DigitsValue(s[1..], acc * 10 + (s[0] - '0') as nat)
  }

  function SkipSpace(s: string): string {
    if s != "" && IsSpace(s[0]) then SkipSpace(s[1..]) else s
  }

  /** The number a string starts with, before any limit is applied. */
  function LeadingNumber(s: string): int {
    var t := SkipSpace(s);
    if t != "" && t[0] == '-' then -(DigitsValue(t[1..], 0) as int)
    else if t != "" && t[0] == '+' then DigitsValue(t[1..], 0)
    else DigitsValue(t, 0)
  }

  /** atol: the value is held at the ends of the range of long. */
  function Atol(s: string): int {
    var n := LeadingNumber(s);
    if n < LONG_MIN then LONG_MIN else if n > LONG_MAX then LONG_MAX else n
  }

  /** atoi: the long value is truncated to 32 bits. */
  function Atoi(s: string): (n: int)
    ensures IsInt(n)
  {
    (Atol(s) - INT_MIN) % 0x1_0000_0000 + INT_MIN
  }

  lemma {:induction false} DigitsValueConcat(a: string, b: string, acc: nat)
    requires AllDigits(a)
    ensures DigitsValue(a + b, acc) == DigitsValue(b, DigitsValue(a, acc))
  {
    if a == "" {
      assert a + b == b;
    } else {
      assert (a + b)[1..] == a[1..] + b;
      assert IsDigit(a[0]);
      DigitsValueConcat(a[1..], b, acc * 10 + (a[0] - '0') as nat);
    }
  }

  lemma {:induction false} DigitsValueOfDigits(n: nat)
    ensures DigitsValue(Digits(n), 0) == n
  {
    if n < 10 {
      var s := [n as char + '0'];
      assert DigitsValue(s[1..], n) == n;
    } else {
      var d := [(n % 10) as char + '0'];
      DigitsValueConcat(Digits(n / 10), d, 0);
      DigitsValueOfDigits(n / 10);
      assert DigitsValue(d[1..], n) == n;
    }
  }

  lemma LeadingNumberOfDecimal(n: int)
    ensures LeadingNumber(Decimal(n)) == n
  {
    DigitsValueOfDigits(if n < 0 then -n else n);
    var s := Decimal(n);
    assert n < 0 ==> s[1..] == Digits(-n);
    assert !IsSpace(s[0]);
  }

  /** atol reads back every long, and is held at the ends of the range for what is beyond. */
  lemma AtolOfDecimal(n: int)
    ensures -0x8000_0000_0000_0000 <= n <= 0x7fff_ffff_ffff_ffff ==> Atol(Decimal(n)) == n
    ensures n < -0x8000_0000_0000_0000 ==> Atol(Decimal(n)) == -0x8000_0000_0000_0000
    ensures n > 0x7fff_ffff_ffff_ffff ==> Atol(Decimal(n)) == 0x7fff_ffff_ffff_ffff
  {
    LeadingNumberOfDecimal(n);
  }

  /** Printing an int with "%d" and reading it back with atoi gives the same int, negative ones included. */
  lemma AtoiOfDecimal(n: int)
    requires IsInt(n)
    ensures Atoi(Decimal(n)) == n
  {
    LeadingNumberOfDecimal(n);
    AtoiOfInt(Decimal(n));
  }

  /** An int passes the truncation unchanged. */
  lemma AtoiOfInt(s: string)
    requires IsInt(LeadingNumber(s))
    ensures Atoi(s) == LeadingNumber(s)
  {
    Truncate(Atol(s));
  }

  lemma Truncate(n: int)
    requires IsInt(n)
    ensures (n - INT_MIN) % 0x1_0000_0000 + INT_MIN == n
  {
  }

  /** A non-digit written after a non-empty string does not change the number it starts with. */
  lemma {:induction false} DigitsValueStops(s: string, t: string, acc: nat)
    requires t != "" && !IsDigit(t[0])
    ensures DigitsValue(s + t, acc) == DigitsValue(s, acc)
  {
    if s == "" {
      assert s + t == t;
    } else {
      assert (s + t)[1..] == s[1..] + t;
      if IsDigit(s[0]) {
        DigitsValueStops(s[1..], t, acc * 10 + (s[0] - '0') as nat);
      }
    }
  }

  /** A letter written behind a string does not change the number the string starts with, even if there is none. */
  lemma {:induction false} LeadingNumberStops(s: string, t: string)
    requires t != "" && !IsDigit(t[0]) && !IsSpace(t[0]) && t[0] != '+' && t[0] != '-'
    ensures LeadingNumber(s + t) == LeadingNumber(s)
  {
    if s == "" {
      assert s + t == t;
    } else {
      assert (s + t)[1..] == s[1..] + t;
      if IsSpace(s[0]) {
        LeadingNumberStops(s[1..], t);
      } else {
        DigitsValueStops(s, t, 0);
        DigitsValueStops(s[1..], t, 0);
      }
    }
  }

  lemma {:induction false} SpacesAreSkipped(spaces: string, s: string)
    requires (forall c :: c in spaces ==> IsSpace(c)) && s != "" && !IsSpace(s[0])
    ensures SkipSpace(spaces + s) == s
  {
    if spaces == "" {
      assert spaces + s == s;
    } else {
      assert spaces[0] in spaces;
      assert (spaces + s)[1..] == spaces[1..] + s;
      SpacesAreSkipped(spaces[1..], s);
    }
  }

  lemma NumberInText(spaces: string, n: int, rest: string)
    requires (forall c :: c in spaces ==> IsSpace(c)) && (rest == "" || !IsDigit(rest[0]))
    ensures LeadingNumber(spaces + (Decimal(n) + rest)) == n
  {
    var s := Decimal(n);
    DigitsValueOfDigits(if n < 0 then -n else n);
    SpacesAreSkipped(spaces, s + rest);
    if n < 0 {
      assert (s + rest)[1..] == Digits(-n) + rest;
      NumberEnds(Digits(-n), rest);
    } else {
      NumberEnds(s, rest);
    }
  }

  /** atoi finds an int behind white space, and stops at the first byte that is not a digit. */
  lemma AtoiInText(spaces: string, n: int, rest: string)
    requires IsInt(n) && (forall c :: c in spaces ==> IsSpace(c)) && (rest == "" || !IsDigit(rest[0]))
    ensures Atoi(spaces + (Decimal(n) + rest)) == n
  {
    NumberInText(spaces, n, rest);
    AtoiOfInt(spaces + (Decimal(n) + rest));
  }

  lemma NumberEnds(digits: string, rest: string)
    requires rest == "" || !IsDigit(rest[0])
    ensures DigitsValue(digits + rest, 0) == DigitsValue(digits, 0)
  {
    if rest == "" {
      assert digits + rest == digits;
    } else {
      DigitsValueStops(digits, rest, 0);
    }
  }

  /** A plus sign is allowed. */
  lemma AtoiOfPlus(n: nat)
    requires IsInt(n)
    ensures Atoi("+" + Decimal(n)) == n
  {
    DigitsValueOfDigits(n);
    assert ("+" + Decimal(n))[1..] == Digits(n);
    assert LeadingNumber("+" + Decimal(n)) == n;
    AtoiOfInt("+" + Decimal(n));
  }

  /** Of a long that is not an int the lower 32 bits count; what is beyond a long is -1 or 0. */
  lemma AtoiWraps(n: int)
    ensures LONG_MIN <= n <= LONG_MAX ==> (Atoi(Decimal(n)) - n) % 0x1_0000_0000 == 0
    ensures n > LONG_MAX ==> Atoi(Decimal(n)) == -1
    ensures n < LONG_MIN ==> Atoi(Decimal(n)) == 0
  {
    LeadingNumberOfDecimal(n);
    Wrap(Atol(Decimal(n)));
  }

  lemma Wrap(n: int)
    ensures ((n - INT_MIN) % 0x1_0000_0000 + INT_MIN - n) % 0x1_0000_0000 == 0
  {
    var m := n - INT_MIN;
    assert m == m / 0x1_0000_0000 * 0x1_0000_0000 + m % 0x1_0000_0000;
    assert m % 0x1_0000_0000 - m == (-(m / 0x1_0000_0000)) * 0x1_0000_0000;
  }

  /** A string that starts with something else is 0. */
  lemma AtoiOfOther(s: string)
    requires s == "" || (!IsDigit(s[0]) && !IsSpace(s[0]) && s[0] != '+' && s[0] != '-')
    ensures Atoi(s) == 0
  {
  }

  /** The length of a decimal grows with the bound on its value. */
  lemma {:induction false} DigitsLength(n: nat, k: nat, bound: nat)
    requires k >= 1 && bound == Pow10(k) && n < bound
    ensures |Digits(n)| <= k
    decreases k
  {
    if n >= 10 {
      DigitsLength(n / 10, k - 1, Pow10(k - 1));
    }
  }

  function Pow10(k: nat): nat {
    if k == 0 then 1 else 10 * Pow10(k - 1)
  }
}
