/**
 * String operations of JavaScript's `String.prototype` that the modelled code
 * relies on: `startsWith`, `endsWith`, `includes`, `replace` with a string
 * pattern (first occurrence only), a global one-character `replace`, decimal
 * rendering of integers (`${n}`) and `padStart`.
 */
module Text {

  lemma ConcatAssociative(a: string, b: string, c: string)
    ensures a + b + c == a + (b + c)
  {
  }

  predicate StartsWith(s: string, p: string)
  {
    |p| <= |s| && s[..|p|] == p
  }

  predicate EndsWith(s: string, p: string)
  {
    |p| <= |s| && s[|s| - |p|..] == p
  }

  /** `s.includes(t)`: `t` occurs somewhere in `s`. */
  predicate Contains(s: string, t: string)
    decreases |s|
  {
    StartsWith(s, t) || (s != [] && Contains(s[1..], t))
  }

  lemma ContainsEmpty(s: string)
    ensures Contains(s, "")
  {
  }

  /**
   * `s.replace(pat, rep)` with a string (not a regular expression) pattern:
   * only the first occurrence of `pat` is replaced. An empty pattern matches
   * at position 0, so `rep` is then inserted in front of `s`.
   */
  function ReplaceFirst(s: string, pat: string, rep: string): string
    decreases |s|
  {
    if StartsWith(s, pat) then rep + s[|pat|..]
    else if s == [] then s
    else [s[0]] + ReplaceFirst(s[1..], pat, rep)
  }

  /**
   * Without an occurrence nothing changes; with one, exactly one occurrence
   * is swapped, so the length changes by the difference of the two lengths.
   */
  lemma {:induction false} ReplaceFirstEffect(s: string, pat: string, rep: string)
    ensures !Contains(s, pat) ==> ReplaceFirst(s, pat, rep) == s
    ensures Contains(s, pat) ==> |ReplaceFirst(s, pat, rep)| == |s| - |pat| + |rep|
    decreases |s|
  {
    if !StartsWith(s, pat) && s != [] {
      ReplaceFirstEffect(s[1..], pat, rep);
      assert [s[0]] + s[1..] == s;
    }
  }

  /** An occurrence at the very start is the one that is replaced. */
  lemma ReplaceFirstAtStart(s: string, pat: string, rep: string)
    requires StartsWith(s, pat)
    ensures ReplaceFirst(s, pat, rep) == rep + s[|pat|..]
  {
  }

  /**
   * A prefix that does not contain the first character of the pattern holds
   * no occurrence of it, not even one that straddles into what follows, so
   * the replacement happens in the rest.
   */
  lemma {:induction false} ReplaceFirstSkips(p: string, s: string, pat: string, rep: string)
    requires pat != [] && pat[0] !in p
    ensures ReplaceFirst(p + s, pat, rep) == p + ReplaceFirst(s, pat, rep)
    decreases |p|
  {
    if p == [] {
      assert p + s == s;
    } else {
      assert (p + s)[0] == p[0] != pat[0];
      assert !StartsWith(p + s, pat);
      assert ReplaceFirst(p + s, pat, rep) == [p[0]] + ReplaceFirst((p + s)[1..], pat, rep);
      assert (p + s)[1..] == p[1..] + s;
      ReplaceFirstSkips(p[1..], s, pat, rep);
      assert [p[0]] + (p[1..] + ReplaceFirst(s, pat, rep)) == p + ReplaceFirst(s, pat, rep);
    }
  }

  /** `s.replace(/[..]/g, to)`: every character of `s` that is in `from` becomes `to`. */
  function Substitute(s: string, from: set<char>, to: char): (r: string)
    ensures |r| == |s|
    ensures to !in from ==> forall i :: 0 <= i < |r| ==> r[i] !in from
    ensures forall i :: 0 <= i < |s| && s[i] !in from ==> r[i] == s[i]
  {
    seq(|s|, i requires 0 <= i < |s| => if s[i] in from then to else s[i])
  }

  lemma SubstituteAppend(a: string, b: string, from: set<char>, to: char)
    ensures Substitute(a + b, from, to) == Substitute(a, from, to) + Substitute(b, from, to)
  {
    assert forall i :: 0 <= i < |a + b| ==>
      Substitute(a + b, from, to)[i] == (Substitute(a, from, to) + Substitute(b, from, to))[i];
  }

  predicate IsDigit(c: char)
  {
    '0' <= c <= '9'
  }

  predicate AllDigits(s: string)
  {
    forall i :: 0 <= i < |s| ==> IsDigit(s[i])
  }

  function DigitChar(d: nat): (c: char)
    requires d < 10
    ensures IsDigit(c)
  {
    ('0' as int + d) as char
  }

  function DigitValue(c: char): (d: nat)
    requires IsDigit(c)
    ensures d < 10 && DigitChar(d) == c
  {
    c as int - '0' as int
  }

  /** `${n}` for a non-negative integer: its decimal digits, without leading zeros. */
  function NatToDecimal(n: nat): (r: string)
    ensures 1 <= |r| && AllDigits(r)
    ensures n < 10 <==> |r| == 1
    decreases n
  {
    if n < 10 then [DigitChar(n)] else NatToDecimal(n / 10) + [DigitChar(n % 10)]
  }

  /** `${i}` for any integer: a minus sign in front of the digits when negative. */
  function IntToDecimal(i: int): (r: string)
    ensures 1 <= |r|
    ensures i >= 0 ==> r == NatToDecimal(i)
    ensures i < 0 ==> r[0] == '-' && r[1..] == NatToDecimal(-i)
  {
    if i < 0 then "-" + NatToDecimal(-i) else NatToDecimal(i)
  }

  /** The value of a string of decimal digits (the inverse of `NatToDecimal`). */
  function ParseDecimal(s: string): nat
    requires AllDigits(s)
    decreases |s|
  {
    if s == [] then 0 else ParseDecimal(s[..|s| - 1]) * 10 + DigitValue(s[|s| - 1])
  }

  lemma {:induction false} DecimalRoundTrip(n: nat)
    ensures ParseDecimal(NatToDecimal(n)) == n
    decreases n
  {
    if n >= 10 {
      var r := NatToDecimal(n);
      assert r[..|r| - 1] == NatToDecimal(n / 10);
      DecimalRoundTrip(n / 10);
    }
  }

  /** `s.padStart(width, [c])`: `c` repeated in front of `s` up to `width` characters. */
  function PadStart(s: string, width: nat, c: char): (r: string)
    ensures |r| == if |s| < width then width else |s|
    ensures EndsWith(r, s)
    ensures forall i :: 0 <= i < |r| - |s| ==> r[i] == c
  {
    if |s| < width then seq(width - |s|, _ => c) + s else s
  }
}
