/**
 * Decimal digits, their numeric value, and a small reference semantics for the
 * anchored regular expressions used to recognise mention links.
 *
 * `\d` and `[0-9]` in a JavaScript regular expression without the `u` flag
 * match exactly the ASCII digits '0'..'9'; `^` and `$` without the `m` flag
 * anchor at the start and the very end of the input.
 */
module Patterns {

  predicate IsDigit(c: char) {
    '0' <= c <= '9'
  }

  predicate AllDigits(s: string) {
    forall i :: 0 <= i < |s| ==> IsDigit(s[i])
  }

  function DigitValue(c: char): (v: nat)
    requires IsDigit(c)
    ensures v < 10
  {
    (c as int) - ('0' as int)
  }

  function DigitChar(v: nat): (c: char)
    requires v < 10
    ensures IsDigit(c) && DigitValue(c) == v
  {
    (('0' as int) + v) as char
  }

  /** The value `parseInt` gives a string of decimal digits (read most significant digit first). */
  function DecimalValue(s: string): nat
    requires AllDigits(s)
  {
    if s == [] then 0 else 10 * DecimalValue(s[..|s| - 1]) + DigitValue(s[|s| - 1])
  }

  /** The canonical decimal spelling of `n`: at least one digit, no leading zero. */
  function DecimalString(n: nat): (s: string)
    ensures |s| > 0 && AllDigits(s)
    ensures s[0] == '0' ==> n == 0
  {
    if n < 10 then [DigitChar(n)] else DecimalString(n / 10) + [DigitChar(n % 10)]
  }

  /** Reading back the canonical spelling of a number gives the number. */
  lemma {:induction false} DecimalRoundTrip(n: nat)
    ensures DecimalValue(DecimalString(n)) == n
  {
    if n >= 10 {
      var s := DecimalString(n / 10);
      var t := s + [DigitChar(n % 10)];
      assert DecimalString(n) == t;
      assert t[..|t| - 1] == s;
      DecimalRoundTrip(n / 10);
    }
  }

  /** Leading zeros do not change the value: `parseInt("007")` is 7. */
  lemma {:induction false} LeadingZeroIgnored(s: string)
    requires AllDigits(s)
    ensures AllDigits("0" + s) && DecimalValue("0" + s) == DecimalValue(s)
  {
    if s != [] {
      var init := s[..|s| - 1];
      assert ("0" + s)[..|"0" + s| - 1] == "0" + init;
      LeadingZeroIgnored(init);
    }
  }

  /** One element of a regular expression: a literal character, `\d`, or `\d*`. */
  datatype Atom = Lit(c: char) | AnyDigit | DigitStar

  type Regex = seq<Atom>

  /** The regular expression that matches exactly the string `s`. */
  function Literal(s: string): (r: Regex)
    ensures |r| == |s|
  {
    seq(|s|, i requires 0 <= i < |s| => Lit(s[i]))
  }

  /** `\d+`, written as `\d\d*`. */
  const DigitPlus: Regex := [AnyDigit, DigitStar]

  /** Whether the regular expression `p`, anchored at both ends, matches the whole of `s`. */
  predicate Matches(p: Regex, s: string)
    decreases |p|, |s|
  {
    if p == [] then s == []
    else match p[0]
      case Lit(c) => s != [] && s[0] == c && Matches(p[1..], s[1..])
      case AnyDigit => s != [] && IsDigit(s[0]) && Matches(p[1..], s[1..])
      case DigitStar => Matches(p[1..], s) || (s != [] && IsDigit(s[0]) && Matches(p, s[1..]))
  }

  lemma {:induction false} DigitStarMatches(s: string)
    ensures Matches([DigitStar], s) <==> AllDigits(s)
  {
    assert [DigitStar][1..] == [];
    if s != [] {
      DigitStarMatches(s[1..]);
      assert AllDigits(s) <==> IsDigit(s[0]) && AllDigits(s[1..]) by {
        if IsDigit(s[0]) && AllDigits(s[1..]) {
          forall i | 0 <= i < |s| ensures IsDigit(s[i]) {
            if i > 0 { assert s[i] == s[1..][i - 1]; }
          }
        }
      }
    }
  }

  /** `\d+` matches exactly the non-empty strings of digits. */
  lemma DigitPlusMatches(s: string)
    ensures Matches(DigitPlus, s) <==> |s| > 0 && AllDigits(s)
  {
    assert DigitPlus[1..] == [DigitStar];
    if s != [] {
      DigitStarMatches(s[1..]);
      assert AllDigits(s) <==> IsDigit(s[0]) && AllDigits(s[1..]) by {
        if IsDigit(s[0]) && AllDigits(s[1..]) {
          forall i | 0 <= i < |s| ensures IsDigit(s[i]) {
            if i > 0 { assert s[i] == s[1..][i - 1]; }
          }
        }
      }
    }
  }

  /** A literal prefix followed by `p` matches `s` exactly when `s` starts with that prefix and `p` matches the rest. */
  lemma {:induction false} LiteralThenMatches(lit: string, p: Regex, s: string)
    ensures Matches(Literal(lit) + p, s) <==> |s| >= |lit| && s[..|lit|] == lit && Matches(p, s[|lit|..])
  {
    if lit != [] {
      var q := Literal(lit) + p;
      assert q[0] == Lit(lit[0]);
      assert q[1..] == Literal(lit[1..]) + p;
      if s != [] {
        LiteralThenMatches(lit[1..], p, s[1..]);
        if |s| >= |lit| {
          assert s[1..][|lit| - 1..] == s[|lit|..];
          assert s[..|lit|] == [s[0]] + s[1..][..|lit| - 1];
          assert lit == [lit[0]] + lit[1..];
        }
      }
    } else {
      assert Literal(lit) + p == p;
    }
  }

  /**
   * The anchored pattern `^<lit>(\d+)$` matches `s` exactly when `s` is `lit`
   * followed by one or more digits, which is then the captured group.
   */
  lemma AnchoredDigitsMatches(lit: string, s: string)
    ensures Matches(Literal(lit) + DigitPlus, s) <==>
              |s| > |lit| && s[..|lit|] == lit && AllDigits(s[|lit|..])
  {
    LiteralThenMatches(lit, DigitPlus, s);
    if |s| >= |lit| {
      DigitPlusMatches(s[|lit|..]);
    }
  }
}
