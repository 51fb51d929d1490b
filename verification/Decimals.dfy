/** Integers as decimal text. */
module Decimals {
  import opened Keys

  function Digits(n: nat): (text: string)
    ensures text != "" && NewlineFree(text) && '-' !in text
  {
    var digit := '0' + ((n % 10) as char);
    if n < 10 then [digit] else Digits(n / 10) + [digit]
  }

  function Decimal(n: int): string {
    if n < 0 then "-" + Digits(-n) else Digits(n)
  }

  lemma {:induction false} DigitsTellApart(m: nat, n: nat)
    requires Digits(m) == Digits(n)
    ensures m == n
    decreases m + n
  {
    var left, right := Digits(m), Digits(n);
    assert left[|left| - 1] == '0' + ((m % 10) as char) && right[|right| - 1] == '0' + ((n % 10) as char);
    assert m % 10 == n % 10;
    assert (|left| > 1 <==> m >= 10) && (|right| > 1 <==> n >= 10);
    if m >= 10 {
      assert left[..|left| - 1] == Digits(m / 10) && right[..|right| - 1] == Digits(n / 10);
      DigitsTellApart(m / 10, n / 10);
    }
  }

  lemma DecimalTellsApart(m: int, n: int)
    requires Decimal(m) == Decimal(n)
    ensures m == n
  {
    var left, right := Decimal(m), Decimal(n);
    assert m < 0 <==> '-' in left by {
      if m < 0 { assert left[0] == '-'; }
    }
    assert n < 0 <==> '-' in right by {
      if n < 0 { assert right[0] == '-'; }
    }
    if m < 0 {
      assert left[1..] == Digits(-m) && right[1..] == Digits(-n);
      DigitsTellApart(-m, -n);
    } else {
      DigitsTellApart(m, n);
    }
  }

  // ---------- reading decimals back ----------

  predicate AllDigits(text: string) {
    forall i :: 0 <= i < |text| ==> '0' <= text[i] <= '9'
  }

  predicate IsNatural(text: string) {
    text != "" && AllDigits(text) && (|text| > 1 ==> text[0] != '0')
  }

  /** Canonical decimal text: no leading zeros, no plus sign, no negative zero. */
  predicate IsDecimal(text: string) {
    IsNatural(text) || (|text| > 1 && text[0] == '-' && IsNatural(text[1..]) && text[1..] != "0")
  }

  function Natural(text: string): nat
    requires AllDigits(text)
  {
    if text == "" then 0 else Natural(text[..|text| - 1]) * 10 + (text[|text| - 1] - '0') as nat
  }

  lemma {:induction false} NaturalReads(text: string)
    requires IsNatural(text)
    ensures Digits(Natural(text)) == text
    ensures text != "0" ==> Natural(text) > 0
    decreases |text|
  {
    var front, digit := text[..|text| - 1], (text[|text| - 1] - '0') as nat;
    assert text == front + [text[|text| - 1]];
    if front == "" {
      assert Natural(front) == 0;
    } else {
      assert front[0] == text[0];
      NaturalReads(front);
    }
    var n := Natural(text);
    assert n / 10 == Natural(front) && n % 10 == digit;
  }

  lemma {:induction false} DigitsAreNatural(n: nat)
    ensures IsNatural(Digits(n)) && (n > 0 ==> Digits(n)[0] != '0')
    decreases n
  {
    if n >= 10 {
      DigitsAreNatural(n / 10);
    }
  }

  /** The canonical texts are exactly those that integers print as. */
  lemma DecimalsAreCanonical(text: string)
    ensures IsDecimal(text) <==> exists n: int :: Decimal(n) == text
  {
    if IsDecimal(text) {
      if IsNatural(text) {
        NaturalReads(text);
        assert Decimal(Natural(text)) == text;
      } else {
        NaturalReads(text[1..]);
        assert text == "-" + text[1..];
        var n: int := Natural(text[1..]);
        assert Decimal(-n) == text;
      }
    }
    if n: int :| Decimal(n) == text {
      DigitsAreNatural(if n < 0 then -n else n);
      if n < 0 {
        assert text[1..] == Digits(-n);
      }
    }
  }
}
