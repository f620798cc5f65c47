/** Numbers in text, as %d, %02x and %04x print them. */
module Digits {
  import opened Common

  datatype Base = Dec | Hex
  {
    function Radix(): nat {
      if Dec? then 10 else 16
    }

    function Quotient(n: nat): nat {
      if Dec? then n / 10 else n / 16
    }

    function Remainder(n: nat): nat {
      if Dec? then n % 10 else n % 16
    }

    function Times(n: nat): nat {
      if Dec? then n * 10 else n * 16
    }
  }

  const DIGITS := "0123456789abcdef"

  function Digit(d: nat): char
    requires d < 16
  {
    DIGITS[d]
  }

  function DigitValue(c: char): nat {
    if '0' <= c <= '9' then (c as int) - ('0' as int)
    else if 'a' <= c <= 'f' then (c as int) - ('a' as int) + 10
    else 0
  }

  function Print(n: nat, base: Base): (s: string)
    ensures |s| > 0
    decreases n
  {
    if n < base.Radix() then [Digit(n)] else Print(base.Quotient(n), base) + [Digit(base.Remainder(n))]
  }

  function Parse(s: string, base: Base): nat {
    if s == [] then 0 else base.Times(Parse(s[..|s| - 1], base)) + DigitValue(s[|s| - 1])
  }

  /** Printing with leading zeros up to a minimal width. */
  function Padded(n: nat, base: Base, width: nat): (s: string)
    ensures |s| > 0
  {
    var s := Print(n, base);
    if |s| >= width then s else Repeat('0', width - |s|) + s
  }

  lemma DigitRoundTrip(d: nat)
    requires d < 16
    ensures DigitValue(Digit(d)) == d
  {
  }

  lemma ParseSnoc(s: string, c: char, base: Base)
    ensures Parse(s + [c], base) == base.Times(Parse(s, base)) + DigitValue(c)
  {
    assert (s + [c])[..|s|] == s;
  }

  lemma {:induction false} ParsePrint(n: nat, base: Base)
    ensures Parse(Print(n, base), base) == n
    decreases n
  {
    if n < base.Radix() {
      ParseSnoc([], Digit(n), base);
      assert [] + [Digit(n)] == [Digit(n)];
      DigitRoundTrip(n);
    } else {
      ParsePrint(base.Quotient(n), base);
      ParseSnoc(Print(base.Quotient(n), base), Digit(base.Remainder(n)), base);
      DigitRoundTrip(base.Remainder(n));
    }
  }

  lemma {:induction false} ParseZeros(s: string, base: Base, k: nat)
    ensures Parse(Repeat('0', k) + s, base) == Parse(s, base)
    decreases k + |s|
  {
    var t := Repeat('0', k) + s;
    if s != [] {
      assert t[..|t| - 1] == Repeat('0', k) + s[..|s| - 1];
      ParseZeros(s[..|s| - 1], base, k);
    } else if k > 0 {
      assert t[..|t| - 1] == Repeat('0', k - 1) + s;
      ParseZeros(s, base, k - 1);
    }
  }

  lemma ParsePadded(n: nat, base: Base, width: nat)
    ensures Parse(Padded(n, base, width), base) == n
  {
    var s := Print(n, base);
    ParsePrint(n, base);
    if |s| < width {
      ParseZeros(s, base, width - |s|);
    }
  }

  lemma {:induction false} PrintDigits(n: nat, base: Base)
    ensures forall c :: c in Print(n, base) ==> c in DIGITS
    ensures Print(n, base)[0] == '0' ==> n == 0
    decreases n
  {
    if n >= base.Radix() {
      PrintDigits(base.Quotient(n), base);
    }
  }

  /** The text is digits, at least as many as asked for, and zeros lead it only up to that width. */
  lemma PaddedShape(n: nat, base: Base, width: nat)
    ensures forall c :: c in Padded(n, base, width) ==> c in DIGITS
    ensures |Padded(n, base, width)| >= width
    ensures |Padded(n, base, width)| > width && n > 0 ==> Padded(n, base, width)[0] != '0'
  {
    PrintDigits(n, base);
    assert DIGITS[0] == '0';
  }

  /** Different numbers print differently. */
  lemma PaddedInjective(a: nat, b: nat, base: Base, width: nat)
    requires Padded(a, base, width) == Padded(b, base, width)
    ensures a == b
  {
    ParsePadded(a, base, width);
    ParsePadded(b, base, width);
  }
}
