/**
 * Decimal rendering of numbers, as std::to_string and stream output do it, with its
 * inverse, and the bag file naming scheme that starts every name with a counter.
 */
module Decimal {
  import opened Basics

  predicate IsDigit(c: char) { '0' <= c <= '9' }

  function DigitChar(d: nat): (c: char)
    requires d < 10
    ensures IsDigit(c) && DigitValue(c) == d
  {
    '0' + d as char
  }

  function DigitValue(c: char): (d: nat)
    requires IsDigit(c)
    ensures d < 10
  {
    c as int - '0' as int
  }

  function Digits(n: nat): (s: string)
    ensures |s| > 0
    ensures forall k | 0 <= k < |s| :: IsDigit(s[k])
  {
    if n < 10 then [DigitChar(n)] else Digits(n / 10) + [DigitChar(n % 10)]
  }

  function ParseNat(s: string): Option<nat> {
    if s == [] || !IsDigit(s[|s| - 1]) then None
    else if |s| == 1 then Some(DigitValue(s[0]))
    else match ParseNat(s[..|s| - 1])
      case None => None
      case Some(n) => Some(10 * n + DigitValue(s[|s| - 1]))
  }

  function IntToString(n: int): (s: string)
    ensures |s| > 0
  {
    if n >= 0 then Digits(n) else "-" + Digits(-n)
  }

  function ParseInt(s: string): Option<int> {
    if s != [] && s[0] == '-' then Negate(ParseNat(s[1..])) else ParseNat(s)
  }

  function Negate(n: Option<nat>): Option<int> {
    if n.None? then None else Some(-(n.value as int))
  }

  lemma {:induction false} ParseNatDigits(n: nat)
    ensures ParseNat(Digits(n)) == Some(n)
  {
    if n >= 10 {
      var s := Digits(n);
      assert s[..|s| - 1] == Digits(n / 10);
      ParseNatDigits(n / 10);
    }
  }

  /** Reading back a rendered number gives the number. */
  lemma ParseIntRoundTrip(n: int)
    ensures ParseInt(IntToString(n)) == Some(n)
  {
    if n >= 0 {
      ParseNatDigits(n);
      assert IsDigit(Digits(n)[0]);
    } else {
      ParseNatDigits(-n);
      assert IntToString(n)[1..] == Digits(-n);
    }
  }

  /** The base name of the bag file with the given counter: everything after the counter
      (prefix, time stamp, extension) is arbitrary. */
  function FileName(index: nat, rest: string): string {
    Digits(index) + "_" + rest
  }

  predicate NamedAt(name: string, index: nat) {
    Digits(index) + "_" <= name
  }

  /** No name carries two counters, so names of different files never coincide, nor does a
      file's name with another file's name plus a suffix. */
  lemma NamedAtUnique(name: string, i: nat, j: nat)
    requires NamedAt(name, i) && NamedAt(name, j)
    ensures i == j
  {
    var a, b := Digits(i) + "_", Digits(j) + "_";
    assert name[|a| - 1] == a[|a| - 1] == '_';
    assert name[|b| - 1] == b[|b| - 1] == '_';
    assert |a| == |b|;
    assert Digits(i) == a[..|a| - 1] == name[..|a| - 1] == b[..|b| - 1] == Digits(j);
    ParseNatDigits(i);
    ParseNatDigits(j);
  }

  lemma FileNameNamedAt(index: nat, rest: string)
    ensures NamedAt(FileName(index, rest), index)
  {
    assert FileName(index, rest) == (Digits(index) + "_") + rest;
  }

  lemma SuffixKeepsIndex(name: string, index: nat, suffix: string)
    requires NamedAt(name, index)
    ensures NamedAt(name + suffix, index)
  {
    var a := Digits(index) + "_";
    assert (name + suffix)[..|a|] == name[..|a|] == a;
  }
}
