/** Numbers in text: decimal printing, and strtol of the C library on base 10. */
module PortText {

  predicate IsDigit(c: char) {
    '0' <= c <= '9'
  }

  function DigitOf(c: char): (d: nat)
    requires IsDigit(c)
    ensures d < 10
  {
    c as int - '0' as int
  }

  function DigitChar(d: nat): (c: char)
    requires d < 10
    ensures IsDigit(c) && DigitOf(c) == d
  {
    (d + '0' as int) as char
  }

  function Digits(n: nat): (s: string)
    ensures s != "" && AllDigits(s)
  {
    if n < 10 then [DigitChar(n)] else Digits(n / 10) + [DigitChar(n % 10)]
  }

  ghost predicate AllDigits(s: string) {
    forall i :: 0 <= i < |s| ==> IsDigit(s[i])
  }

  /** Read digits off the front: the number, and what follows. */
  function Read(acc: nat, s: string): (r: (nat, string))
    ensures |r.1| <= |s|
    decreases |s|
  {
    if s != "" && IsDigit(s[0]) then Read(10 * acc + DigitOf(s[0]), s[1..]) else (acc, s)
  }

  function Value(acc: nat, s: string): nat
    requires AllDigits(s)
  {
    if s == "" then acc else 10 * Value(acc, s[..|s| - 1]) + DigitOf(s[|s| - 1])
  }

  predicate StartsWithDigit(s: string) {
    s != "" && IsDigit(s[0])
  }

  lemma {:induction false} ValueOfFirst(acc: nat, s: string)
    requires AllDigits(s) && s != ""
    ensures Value(acc, s) == Value(10 * acc + DigitOf(s[0]), s[1..])
  {
    if |s| > 1 {
      ValueOfFirst(acc, s[..|s| - 1]);
      assert s[..|s| - 1][1..] == s[1..][..|s| - 2];
    }
  }

  lemma {:induction false} ReadAll(acc: nat, s: string, r: string)
    requires AllDigits(s) && !StartsWithDigit(r)
    ensures Read(acc, s + r) == (Value(acc, s), r)
    decreases |s|
  {
    if s == "" {
      assert s + r == r;
    } else {
      assert (s + r)[1..] == s[1..] + r;
      ReadAll(10 * acc + DigitOf(s[0]), s[1..], r);
      ValueOfFirst(acc, s);
    }
  }

  lemma {:induction false} ValueOfDigits(n: nat)
    ensures Value(0, Digits(n)) == n
  {
    if n >= 10 {
      ValueOfDigits(n / 10);
      assert Digits(n)[..|Digits(n)| - 1] == Digits(n / 10);
    }
  }

  predicate IsSpace(c: char) {
    c == ' ' || '\t' <= c <= '\r'
  }

  function SkipSpaces(s: string): (r: string)
    ensures |r| <= |s|
  {
    if s != "" && IsSpace(s[0]) then SkipSpaces(s[1..]) else s
  }

  /** strtol: blanks, a sign and digits; without digits nothing is read and all of `s` is left. */
  function Strtol(s: string): (r: (int, string))
    ensures |r.1| <= |s|
  {
    var t := SkipSpaces(s);
    var signed := t != "" && (t[0] == '-' || t[0] == '+');
    var u := if signed then t[1..] else t;
    if !StartsWithDigit(u) then (0, s)
    else
      var (v, rest) := Read(0, u);
      (if t[0] == '-' then 0 - v as int else v as int, rest)
  }

  /** Printing and reading back. */
  lemma {:induction false} StrtolOfDigits(n: nat, r: string)
    requires !StartsWithDigit(r)
    ensures Strtol(Digits(n) + r) == (n, r)
  {
    var s := Digits(n) + r;
    assert s[0] == Digits(n)[0];
    ReadAll(0, Digits(n), r);
    ValueOfDigits(n);
  }
}
