/** Decimal numbers, as `strconv` prints and reads them. */
module Numerals {
  predicate Numeral(d: string) { d != "" && forall i :: 0 <= i < |d| ==> '0' <= d[i] <= '9' }

  function Digits(n: nat): (d: string)
    ensures Numeral(d)
  {
    if n < 10 then ['0' + n as char] else Digits(n / 10) + ['0' + (n % 10) as char]
  }

  function Itoa(n: int): string { if n < 0 then "-" + Digits(-n) else Digits(n) }

  function Magnitude(d: string): nat
    requires forall i :: 0 <= i < |d| ==> '0' <= d[i] <= '9'
  {
    if d == "" then 0 else 10 * Magnitude(d[..|d| - 1]) + (d[|d| - 1] - '0') as nat
  }

  /** The number a text with an optional sign denotes, 0 if it is none. */
  function Number(s: string): int {
    var signed := s != "" && (s[0] == '-' || s[0] == '+');
    var d := if signed then s[1..] else s;
    if !Numeral(d) then 0 else if signed && s[0] == '-' then -(Magnitude(d) as int) else Magnitude(d)
  }

  lemma {:induction false} DigitsRead(n: nat)
    ensures Magnitude(Digits(n)) == n
  {
    if n < 10 {
      assert Digits(n)[..0] == "";
    } else {
      DigitsRead(n / 10);
      assert Digits(n)[..|Digits(n)| - 1] == Digits(n / 10);
    }
  }

  lemma {:induction false} NoLeadingZero(n: nat)
    ensures |Digits(n)| > 1 ==> Digits(n)[0] != '0'
    ensures n > 0 ==> Digits(n)[0] != '0'
  {
    if n >= 10 {
      NoLeadingZero(n / 10);
    }
  }

  /** A number is printed in the shortest way: a sign if it is negative, and digits of which the
      first is not zero unless it is the only one. */
  lemma ItoaShortest(n: int)
    ensures Itoa(n) != "" && (Itoa(n)[0] == '-' <==> n < 0)
    ensures var d := if n < 0 then Itoa(n)[1..] else Itoa(n);
            Numeral(d) && (|d| > 1 ==> d[0] != '0')
  {
    hide Digits;
    NoLeadingZero(if n < 0 then -n else n);
    if n < 0 {
      assert Itoa(n)[1..] == Digits(-n);
    }
  }

  /** What a text denotes: digits their value, with a sign before them if there is one, and
      anything else nothing. */
  lemma NumberIs(s: string)
    ensures Numeral(s) ==> Number(s) == Number("+" + s) == Magnitude(s) && Number("-" + s) == -(Magnitude(s) as int)
    ensures !Numeral(s) && (s == "" || s[0] !in "+-" || !Numeral(s[1..])) ==> Number(s) == 0
  {
    hide Magnitude;
    assert ("+" + s)[1..] == s && ("-" + s)[1..] == s;
    assert Numeral(s) ==> s[0] != '-' && s[0] != '+';
  }

  /** A printed number reads back. */
  lemma ItoaRead(n: int)
    ensures Number(Itoa(n)) == n && '/' !in Itoa(n)
  {
    hide Digits, Magnitude;
    var m: nat := if n < 0 then -n else n;
    DigitsRead(m);
    assert Digits(m)[0] != '-' && Digits(m)[0] != '+';
    if n < 0 {
      assert Itoa(n)[1..] == Digits(m);
    }
  }
}
