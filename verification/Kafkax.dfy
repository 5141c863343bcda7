/** internal/kafkax: `itoa`, which prints a port number into a fixed buffer from its end. */
module Kafkax {
  const BUFFER_LENGTH := 20

  function Pow10(n: nat): (r: nat)
    ensures r >= 1
  {
    if n == 0 then 1 else 10 * Pow10(n - 1)
  }

  function DigitChar(d: nat): char
    requires d < 10
  {
    ('0' as int + d) as char
  }

  /** Positional value of a numeral: the reader's side of the round trip. */
  function Parse(s: string): int {
    if s == "" then 0 else 10 * Parse(s[..|s| - 1]) + (s[|s| - 1] as int - '0' as int)
  }

  predicate IsNumeral(s: string) {
    && s != ""
    && (forall c :: c in s ==> '0' <= c <= '9')
    && (s[0] == '0' ==> s == "0")
  }

  /** The decimal digits of n, none for 0. */
  function Digits(n: nat): string {
    if n == 0 then "" else Digits(n / 10) + [DigitChar(n % 10)]
  }

  function Numeral(n: nat): string {
    if n == 0 then "0" else Digits(n)
  }

  lemma {:induction false} DigitsAreDecimal(n: nat)
    ensures forall c :: c in Digits(n) ==> '0' <= c <= '9'
    ensures Parse(Digits(n)) == n
    ensures n > 0 ==> Digits(n) != "" && Digits(n)[0] != '0'
  {
    if n > 0 {
      DigitsAreDecimal(n / 10);
      var s := Digits(n);
      assert s[..|s| - 1] == Digits(n / 10);
      if n / 10 == 0 {
        assert s == [DigitChar(n % 10)];
      }
    }
  }

  lemma {:induction false} DigitsFit(n: nat, width: nat)
    requires n < Pow10(width)
    ensures |Digits(n)| <= width
  {
    if n > 0 {
      DigitsFit(n / 10, width - 1);
    }
  }

  lemma Pow10By4(k: nat)
    ensures Pow10(3) == 1000 && Pow10(k + 4) == 10000 * Pow10(k)
  {
    assert Pow10(3) == 10 * Pow10(2) == 100 * Pow10(1);
    assert Pow10(k + 4) == 10 * Pow10(k + 3) == 100 * Pow10(k + 2) == 1000 * Pow10(k + 1);
  }

  /** A positive 64-bit int has at most 19 digits, so the write position never runs off the buffer. */
  lemma Int64Fits(n: nat)
    requires n <= 0x7fff_ffff_ffff_ffff
    ensures |Digits(n)| < BUFFER_LENGTH
  {
    Pow10By4(3);
    Pow10By4(7);
    Pow10By4(11);
    Pow10By4(15);
    DigitsFit(n, 19);
  }

  /** The text is the numeral of i, without a leading zero, and reading it gives i back. */
  lemma NumeralRoundTrip(n: nat)
    ensures IsNumeral(Numeral(n)) && Parse(Numeral(n)) == n
  {
    DigitsAreDecimal(n);
    assert Parse("0") == 0;
  }

  /** For instance, the usual port of a broker. */
  lemma KnownNumeral()
    ensures Numeral(9092) == "9092"
  {
    assert Digits(9) == "9" && Digits(90) == "90" && Digits(909) == "909";
  }

  /** i is a 64-bit int; for a negative one the loop writes nothing and the text is empty. */
  method Itoa(i: int) returns (s: string)
    requires -0x8000_0000_0000_0000 <= i <= 0x7fff_ffff_ffff_ffff
    ensures s == if i < 0 then "" else Numeral(i)
  {
    if i == 0 {
      return "0";
    }
    var b := new char[BUFFER_LENGTH](_ => 0 as char);
    var pos := b.Length;
    var n := i;
    if i > 0 {
      Int64Fits(i);
    }
    while n > 0
      invariant 0 <= pos <= b.Length
      invariant i < 0 ==> n == i && pos == b.Length
      invariant i > 0 ==> n >= 0 && Digits(n) + b[pos..] == Digits(i)
      decreases n
    {
      assert |Digits(n)| > 0;
      pos := pos - 1;
      b[pos] := ('0' as int + n % 10) as char;
      assert b[pos..] == [b[pos]] + b[pos + 1..];
      n := n / 10;
    }
    return b[pos..];
  }
}
