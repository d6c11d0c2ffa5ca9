/** The little of Python's string handling that the diff parser uses. */
module Text {

  function IsDigit(c: char): bool { '0' <= c <= '9' }

  function IsSpace(c: char): (b: bool)
    ensures b <==> c as int in {9, 10, 11, 12, 13, 32}
  {
    c == ' ' || '\t' <= c <= '\r'
  }

  /** str.strip() */
  function Strip(s: string): string { StripRight(StripLeft(s)) }

  function StripLeft(s: string): string {
    if s != [] && IsSpace(s[0]) then StripLeft(s[1..]) else s
  }

  function StripRight(s: string): string {
    if s != [] && IsSpace(s[|s| - 1]) then StripRight(s[..|s| - 1]) else s
  }

  /** How many characters \d+ takes, and the number they denote. */
  function Digits(s: string): (n: nat)
    ensures n <= |s|
  {
    if s != [] && IsDigit(s[0]) then 1 + Digits(s[1..]) else 0
  }

  function Number(s: string): nat
    requires forall i :: 0 <= i < |s| ==> IsDigit(s[i])
  {
    if s == [] then 0
    else
      var c := s[|s| - 1];
      assert IsDigit(c);
      10 * Number(s[..|s| - 1]) + (c as nat - '0' as nat)
  }

  lemma {:induction false} AllDigits(s: string)
    ensures forall i :: 0 <= i < Digits(s) ==> IsDigit(s[i])
  {
    if s != [] && IsDigit(s[0]) { AllDigits(s[1..]); }
  }

  function Decimal(n: nat): (s: string)
    ensures |s| > 0 && forall i :: 0 <= i < |s| ==> IsDigit(s[i])
  {
    (if n < 10 then [] else Decimal(n / 10)) + ['0' + (n % 10) as char]
  }

  lemma {:induction false} DecimalIsNumber(n: nat)
    ensures Number(Decimal(n)) == n
  {
    var s := Decimal(n);
    if n < 10 {
      assert s[..|s| - 1] == [];
    } else {
      DecimalIsNumber(n / 10);
      assert s[..|s| - 1] == Decimal(n / 10);
    }
  }

  lemma {:induction false} DigitsThen(s: string, rest: string)
    requires forall i :: 0 <= i < |s| ==> IsDigit(s[i])
    requires rest == [] || !IsDigit(rest[0])
    ensures Digits(s + rest) == |s|
  {
    if s == [] {
      assert s + rest == rest;
    } else {
      assert (s + rest)[1..] == s[1..] + rest;
      DigitsThen(s[1..], rest);
    }
  }

  lemma {:induction false} StripEnd(s: string, blank: string)
    requires s != [] && !IsSpace(s[0]) && !IsSpace(s[|s| - 1])
    requires forall i :: 0 <= i < |blank| ==> IsSpace(blank[i])
    ensures Strip(s + blank) == s
    decreases |blank|
  {
    var t := s + blank;
    assert StripLeft(t) == t;
    if blank == [] {
      assert t == s;
    } else {
      assert t[..|t| - 1] == s + blank[..|blank| - 1];
      StripEnd(s, blank[..|blank| - 1]);
      assert StripLeft(s + blank[..|blank| - 1]) == s + blank[..|blank| - 1];
    }
  }
}
