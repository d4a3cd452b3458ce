/** Decimal numerals as the drivers print and parse them: canonical ones, and
    zero-padded ones as in the nonce of a prompt or the selector of a slot. They
    are what keys and selectors are made of. */
module Decimal {
  import opened Wrappers

  predicate IsDigit(c: char) {
    '0' <= c <= '9'
  }

  predicate AllDigits(s: string) {
    forall i | 0 <= i < |s| :: IsDigit(s[i])
  }

  function Digit(d: nat): (c: char)
    requires d < 10
    ensures IsDigit(c)
  {
    ('0' as int + d) as char
  }

  /** Canonical decimal numeral of `n`. */
  function Print(n: nat): (s: string)
    ensures s != [] && AllDigits(s)
  {
    if n < 10 then [Digit(n)] else Print(n / 10) + [Digit(n % 10)]
  }

  function Value(s: string): nat
    requires AllDigits(s)
  {
    if s == [] then 0 else 10 * Value(s[..|s| - 1]) + (s[|s| - 1] as int - '0' as int)
  }

  /** Non-empty digit strings, leading zeros included. */
  function Parse(s: string): Option<nat> {
    if s != [] && AllDigits(s) then Some(Value(s)) else None
  }

  lemma {:induction false} ParsePrint(n: nat)
    ensures Parse(Print(n)) == Some(n)
  {
    if n < 10 {
      assert Print(n)[..0] == [] && Value([]) == 0;
    } else {
      ParsePrint(n / 10);
      assert Print(n)[..|Print(n)| - 1] == Print(n / 10);
    }
  }

  /** Left-pads with zeros, as the format `:04d` does with width 4. */
  function Padded(n: nat, width: nat): (s: string)
    ensures s != [] && AllDigits(s)
  {
    Pad(Print(n), width)
  }

  function Pad(s: string, width: nat): (r: string)
    requires AllDigits(s)
    ensures AllDigits(r) && |r| >= |s|
    decreases width - |s|
  {
    if |s| >= width then s else Pad(['0'] + s, width)
  }

  lemma {:induction false} LeadingZero(s: string)
    requires AllDigits(s)
    ensures Value(['0'] + s) == Value(s)
  {
    var z := ['0'] + s;
    if s == [] {
      assert z[..0] == [];
    } else {
      LeadingZero(s[..|s| - 1]);
      assert z[..|z| - 1] == ['0'] + s[..|s| - 1];
    }
  }

  lemma {:induction false} PadKeepsValue(s: string, width: nat)
    requires AllDigits(s)
    ensures Value(Pad(s, width)) == Value(s)
    decreases width - |s|
  {
    if |s| < width {
      LeadingZero(s);
      PadKeepsValue(['0'] + s, width);
    }
  }

  /** Zero-padded numerals determine their number, beyond the pad width too. */
  lemma PaddedInjective(m: nat, n: nat, width: nat)
    requires Padded(m, width) == Padded(n, width)
    ensures m == n
  {
    PadKeepsValue(Print(m), width);
    PadKeepsValue(Print(n), width);
    ParsePrint(m);
    ParsePrint(n);
  }

  lemma {:induction false} PadMore(s: string, width: nat)
    requires AllDigits(s) && |s| <= width
    ensures Pad(s, width + 1) == ['0'] + Pad(s, width)
    decreases width - |s|
  {
    if |s| < width {
      PadMore(['0'] + s, width);
    }
  }

  lemma {:induction false} PrintValue(s: string)
    requires s != [] && AllDigits(s) && (s[0] != '0' || |s| == 1)
    ensures Print(Value(s)) == s
    ensures s[0] != '0' ==> Value(s) > 0
  {
    var front, c := s[..|s| - 1], s[|s| - 1];
    var d := c as int - '0' as int;
    assert Digit(d) == c;
    if |s| == 1 {
      assert front == [] && Value(s) == d;
    } else {
      PrintValue(front);
      assert Value(s) / 10 == Value(front) && Value(s) % 10 == d;
      assert s == front + [c];
    }
  }

  lemma {:induction false} PaddedLength(s: string)
    requires s != [] && AllDigits(s)
    ensures |Print(Value(s))| <= |s|
    ensures Padded(Value(s), |s|) == s
  {
    if s[0] != '0' || |s| == 1 {
      PrintValue(s);
    } else {
      var rest := s[1..];
      assert s == ['0'] + rest;
      LeadingZero(rest);
      PaddedLength(rest);
      PadMore(Print(Value(rest)), |rest|);
    }
  }

  /** Exactly the zero-padded numerals of a number parse to it. */
  lemma ParseExact(s: string, n: nat)
    ensures Parse(s) == Some(n) <==> exists width: nat :: s == Padded(n, width)
  {
    if Parse(s) == Some(n) {
      PaddedLength(s);
      assert s == Padded(n, |s|);
    }
    if exists width: nat :: s == Padded(n, width) {
      var width: nat :| s == Padded(n, width);
      PadKeepsValue(Print(n), width);
      ParsePrint(n);
    }
  }
}
