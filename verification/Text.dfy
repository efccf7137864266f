/** Decimal numerals, written and read back. */
module Text {
  import opened Wrappers

  function Digit(d: nat): char
    requires d < 10
  {
    "0123456789"[d]
  }

  predicate IsDigit(c: char) { '0' <= c <= '9' }

  function DigitValue(c: char): nat
    requires IsDigit(c)
  {
    c as int - '0' as int
  }

  /** A natural number in decimal, without leading zeros. */
  function Decimal(n: nat): (s: string)
    ensures s != "" && forall i | 0 <= i < |s| :: IsDigit(s[i])
  {
    if n < 10 then [Digit(n)] else Decimal(n / 10) + [Digit(n % 10)]
  }

  /** An integer in decimal, with a minus sign below zero. */
  function Numeral(v: int): string {
    if v < 0 then "-" + Decimal(-v) else Decimal(v)
  }

  /** Reads digits on top of acc, as far as they go. */
  function ReadDigits(acc: nat, s: string): (r: (nat, string))
    ensures |r.1| <= |s|
    decreases |s|
  {
    if s == "" || !IsDigit(s[0]) then (acc, s) else ReadDigits(10 * acc + DigitValue(s[0]), s[1..])
  }

  lemma {:induction false} ReadDecimal(n: nat, rest: string)
    ensures ReadDigits(0, Decimal(n) + rest) == ReadDigits(n, rest)
    decreases n
  {
    if n < 10 {
      assert (Decimal(n) + rest)[1..] == rest;
    } else {
      var last := [Digit(n % 10)] + rest;
      assert Decimal(n) + rest == Decimal(n / 10) + last;
      ReadDecimal(n / 10, last);
      assert last[1..] == rest;
      assert 10 * (n / 10) + n % 10 == n;
    }
  }

  /** A numeral not followed by another digit is read back to the number it was written from. */
  lemma DecimalRoundTrip(n: nat, rest: string)
    requires rest == "" || !IsDigit(rest[0])
    ensures ReadDigits(0, Decimal(n) + rest) == (n, rest)
  {
    ReadDecimal(n, rest);
  }

  /** A decimal has no leading zero, and an integer a minus sign exactly below zero. */
  lemma {:induction false} DecimalStart(n: nat)
    ensures |Decimal(n)| > 1 ==> Decimal(n)[0] != '0'
    ensures n > 0 ==> Decimal(n)[0] != '0'
    decreases n
  {
    if n >= 10 {
      DecimalStart(n / 10);
      assert Decimal(n)[0] == Decimal(n / 10)[0];
    }
  }

  lemma NumeralStart(v: int)
    ensures Numeral(v)[0] == '-' <==> v < 0
    ensures v >= 0 ==> Numeral(v) == Decimal(v)
    ensures v < 0 ==> Numeral(v) == "-" + Decimal(-v)
  {
    assert IsDigit(Decimal(if v < 0 then -v else v)[0]);
  }

  /** Different integers are written differently. */
  lemma NumeralsDiffer(v: int, w: int)
    requires Numeral(v) == Numeral(w)
    ensures v == w
  {
    NumeralStart(v);
    NumeralStart(w);
    var m, n := if v < 0 then -v else v, if w < 0 then -w else w;
    assert Decimal(m) == if v < 0 then Numeral(v)[1..] else Numeral(v);
    assert Decimal(n) == if w < 0 then Numeral(w)[1..] else Numeral(w);
    DecimalRoundTrip(m, "");
    DecimalRoundTrip(n, "");
    assert Decimal(m) + "" == Decimal(n) + "";
  }

  lemma {:induction false} ReadOneMore(acc: nat, s: string, c: char, v: nat)
    requires IsDigit(c) && ReadDigits(acc, s) == (v, "")
    ensures ReadDigits(acc, s + [c]) == (10 * v + DigitValue(c), "")
    decreases s
  {
    if s == "" {
      assert s + [c] == [c];
      assert ReadDigits(10 * acc + DigitValue(c), [c][1..]) == (10 * acc + DigitValue(c), "");
    } else {
      assert (s + [c])[1..] == s[1..] + [c];
      ReadOneMore(10 * acc + DigitValue(s[0]), s[1..], c, v);
    }
  }

  lemma {:induction false} ReadNotLess(acc: nat, s: string)
    ensures ReadDigits(acc, s).0 >= acc
    decreases s
  {
    if s != "" && IsDigit(s[0]) {
      ReadNotLess(10 * acc + DigitValue(s[0]), s[1..]);
    }
  }

  lemma DigitOfValue(c: char)
    requires IsDigit(c)
    ensures DigitValue(c) < 10 && Digit(DigitValue(c)) == c
  {
  }

  lemma DecimalExtends(v: nat, c: char)
    requires v > 0 && IsDigit(c)
    ensures Decimal(10 * v + DigitValue(c)) == Decimal(v) + [c]
  {
    DigitOfValue(c);
    var n := 10 * v + DigitValue(c);
    assert n / 10 == v && n % 10 == DigitValue(c);
  }

  lemma ReadOneDigit(c: char)
    requires IsDigit(c)
    ensures ReadDigits(0, [c]) == (DigitValue(c), "") && Decimal(DigitValue(c)) == [c]
  {
    DigitOfValue(c);
    ReadOneMore(0, "", c, 0);
    assert "" + [c] == [c];
  }

  lemma ReadsPositive(s: string)
    requires s != "" && IsDigit(s[0]) && s[0] != '0'
    ensures ReadDigits(0, s).0 > 0
  {
    ReadNotLess(DigitValue(s[0]), s[1..]);
  }

  /** Digits without a leading zero are the decimal of the number they read as. */
  lemma {:induction false} OnlyDecimalReads(s: string) returns (n: nat)
    requires s != "" && forall i | 0 <= i < |s| :: IsDigit(s[i])
    requires |s| > 1 ==> s[0] != '0'
    ensures ReadDigits(0, s) == (n, "") && Decimal(n) == s
    decreases |s|
  {
    var front, c := s[..|s| - 1], s[|s| - 1];
    assert s == front + [c];
    if front == "" {
      ReadOneDigit(c);
      n := DigitValue(c);
    } else {
      var v := OnlyDecimalReads(front);
      ReadsPositive(front);
      ReadOneMore(0, front, c, v);
      DecimalExtends(v, c);
      n := 10 * v + DigitValue(c);
    }
  }

  /** What follows a prefix, if s starts with it. */
  function Strip(prefix: string, s: string): (r: Option<string>)
    ensures r.Some? ==> s == prefix + r.value
  {
    if |prefix| <= |s| && s[..|prefix|] == prefix then Some(s[|prefix|..]) else None
  }

  lemma StripPrefix(prefix: string, rest: string)
    ensures Strip(prefix, prefix + rest) == Some(rest)
  {
    assert (prefix + rest)[..|prefix|] == prefix;
    assert (prefix + rest)[|prefix|..] == rest;
  }
}
