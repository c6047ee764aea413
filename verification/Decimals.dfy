/** Natural numbers written in decimal, without leading zeros. */
module Decimals {
  function Decimal(n: nat): (s: string)
  {
    (if n < 10 then "" else Decimal(n / 10)) + [(n % 10 + 48) as char]
  }

  predicate IsDigit(c: char)
  {
    '0' <= c <= '9'
  }

  predicate AllDigits(s: string)
  {
    forall i :: 0 <= i < |s| ==> IsDigit(s[i])
  }

  /** The number that digits stand for. */
  function Read(s: string): (n: nat)
    requires AllDigits(s)
  {
    if s == "" then 0 else Read(s[..|s| - 1]) * 10 + (s[|s| - 1] as int - 48)
  }

  predicate Proper(s: string)
  {
    s != "" && AllDigits(s) && (s == "0" || s[0] != '0')
  }

  function Pow10(k: nat): (n: nat)
    ensures n >= 1
  {
    if k == 0 then 1 else 10 * Pow10(k - 1)
  }

  lemma ReadOfSnoc(front: string, c: char)
    requires AllDigits(front) && IsDigit(c)
    ensures AllDigits(front + [c]) && Read(front + [c]) == Read(front) * 10 + (c as int - 48)
  {
    assert (front + [c])[..|front|] == front;
  }

  lemma ProperSnoc(front: string, c: char)
    requires AllDigits(front) && IsDigit(c) && front != ""
    ensures Proper(front + [c]) <==> Proper(front) && front != "0"
  {
    assert AllDigits(front + [c]) by {
      ReadOfSnoc(front, c);
    }
    assert (front + [c])[0] == front[0];
    assert |front + [c]| > 1 && |"0"| == 1;
    if front[0] == '0' && Proper(front) {
      assert front == "0";
    }
  }

  function DigitOf(n: nat): (c: char)
    requires n < 10
    ensures IsDigit(c) && c as int - 48 == n
  {
    (n + 48) as char
  }

  /** A number is written with digits that read back as it, and without a leading zero. */
  lemma {:induction false} DecimalIsProper(n: nat)
    ensures Proper(Decimal(n)) && Read(Decimal(n)) == n
    ensures Decimal(n) == "0" <==> n == 0
  {
    var c := DigitOf(n % 10);
    var front := if n < 10 then "" else Decimal(n / 10);
    assert Decimal(n) == front + [c];
    if n >= 10 {
      DecimalIsProper(n / 10);
      ProperSnoc(front, c);
    }
    ReadOfSnoc(front, c);
  }

  lemma DecimalStep(n: nat, c: char)
    requires n > 0 && IsDigit(c)
    ensures Decimal(n * 10 + (c as int - 48)) == Decimal(n) + [c]
  {
    var m := n * 10 + (c as int - 48);
    assert m / 10 == n && m % 10 == c as int - 48;
  }

  lemma OneDigitReads(c: char)
    requires IsDigit(c)
    ensures AllDigits([c]) && Read([c]) == c as int - 48
  {
    assert [c][..0] == "";
    assert Read("") == 0;
  }

  lemma OneDigitIsWritten(n: nat)
    requires n < 10
    ensures Decimal(n) == [DigitOf(n)]
  {
    assert n % 10 == n;
    assert Decimal(n) == "" + [DigitOf(n)];
  }

  /** And digits without a leading zero are how the number they read as is written. */
  lemma {:induction false} ProperIsDecimal(s: string)
    requires Proper(s)
    ensures Decimal(Read(s)) == s
  {
    var front, c := s[..|s| - 1], s[|s| - 1];
    assert s == front + [c];
    if front == "" {
      OneDigitReads(c);
      OneDigitIsWritten(c as int - 48);
      assert DigitOf(c as int - 48) == c;
    } else {
      ReadOfSnoc(front, c);
      ProperSnoc(front, c);
      ProperIsDecimal(front);
      DecimalIsProper(Read(front));
      DecimalStep(Read(front), c);
    }
  }

  lemma {:induction false} ReadFits(s: string)
    requires AllDigits(s)
    ensures Read(s) < Pow10(|s|)
  {
    if s != "" {
      ReadFits(s[..|s| - 1]);
    }
  }

  lemma TimesTen(c: nat, p: nat, r: nat, d: nat)
    ensures (c * p + r) * 10 + d == c * (10 * p) + (r * 10 + d)
  {
  }

  lemma {:induction false} ReadFromFront(c: char, s: string)
    requires IsDigit(c) && AllDigits(s)
    ensures AllDigits([c] + s) && Read([c] + s) == (c as int - 48) * Pow10(|s|) + Read(s)
  {
    if s == "" {
      assert [c] + s == [c] && [c][..0] == [];
    } else {
      var front, d := s[..|s| - 1], s[|s| - 1];
      assert s == front + [d] && [c] + s == ([c] + front) + [d];
      ReadFromFront(c, front);
      ReadOfSnoc(front, d);
      ReadOfSnoc([c] + front, d);
      TimesTen(c as int - 48, Pow10(|front|), Read(front), d as int - 48);
    }
  }

  lemma {:induction false} PowersGrow(j: nat, k: nat)
    requires j <= k
    ensures Pow10(j) <= Pow10(k)
  {
    if j < k {
      PowersGrow(j, k - 1);
    }
  }

  lemma AtLeastOnce(k: nat, p: nat)
    requires k >= 1
    ensures k * p >= p
  {
    assert k * p == (k - 1) * p + p;
  }

  lemma ReadFills(s: string)
    requires AllDigits(s) && s != "" && s[0] != '0'
    ensures Read(s) >= Pow10(|s| - 1)
  {
    assert s == [s[0]] + s[1..];
    ReadFromFront(s[0], s[1..]);
    AtLeastOnce(s[0] as int - 48, Pow10(|s| - 1));
  }
}
