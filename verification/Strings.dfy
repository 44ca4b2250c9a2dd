/** Characters, numerals and splitting, as every part of the system uses them. */
module Strings {

  predicate IsDigit(c: char) {
    '0' <= c <= '9'
  }

  predicate Digits(s: string) {
    s != [] && forall i | 0 <= i < |s| :: IsDigit(s[i])
  }

  /** The value of a decimal numeral. */
  function Number(digits: string): nat
    requires forall i | 0 <= i < |digits| :: IsDigit(digits[i])
  {
    if digits == [] then 0
    else
      var last := digits[|digits| - 1];
      assert IsDigit(last);
      Number(digits[..|digits| - 1]) * 10 + (last as int - '0' as int)
  }

  function Decimal(n: nat): string {
    if n < 10 then [('0' as int + n) as char]
    else Decimal(n / 10) + [('0' as int + n % 10) as char]
  }

  lemma {:induction false} DecimalIsDigits(n: nat)
    ensures Digits(Decimal(n))
  {
    if n >= 10 {
      DecimalIsDigits(n / 10);
    }
  }

  /** The decimal text of a number reads back as that number, without leading zeroes. */
  lemma {:induction false} DecimalReadsBack(n: nat)
    ensures Digits(Decimal(n)) && Number(Decimal(n)) == n
    ensures Decimal(n)[0] == '0' ==> n == 0 && Decimal(n) == "0"
  {
    DecimalIsDigits(n);
    if n < 10 {
      OneDigit(('0' as int + n) as char);
    } else {
      DecimalReadsBack(n / 10);
      var init, last := Decimal(n / 10), ('0' as int + n % 10) as char;
      assert Decimal(n) == init + [last];
      assert Decimal(n)[..|init|] == init;
    }
  }

  lemma OneDigit(c: char)
    requires IsDigit(c)
    ensures Number([c]) == c as int - '0' as int
  {
    assert [c][..0] == [];
  }

  /** A numeral is worth the sum of its digits, each ten times its right neighbour's place. */
  lemma {:induction false} NumberIsPositional(a: string, b: string)
    requires (forall i | 0 <= i < |a| :: IsDigit(a[i])) && (forall i | 0 <= i < |b| :: IsDigit(b[i]))
    ensures forall i | 0 <= i < |a + b| :: IsDigit((a + b)[i])
    ensures Number(a + b) == Number(a) * Power(|b|) + Number(b)
  {
    if b == [] {
      assert a + b == a;
    } else {
      var n := |b| - 1;
      NumberIsPositional(a, b[..n]);
      assert (a + b)[..|a| + n] == a + b[..n];
      var w, c := Number(b[..n]), b[n] as int - '0' as int;
      assert IsDigit(b[n]);
      assert Number(a + b) == (Number(a) * Power(n) + w) * 10 + c;
      Distribute(Number(a), Power(n), w, c);
    }
  }

  lemma Distribute(x: nat, p: nat, w: nat, c: nat)
    ensures (x * p + w) * 10 + c == x * (p * 10) + (w * 10 + c)
  {}

  function Power(n: nat): nat {
    if n == 0 then 1 else Power(n - 1) * 10
  }

  lemma {:induction false} DecimalInjective(m: nat, n: nat)
    requires Decimal(m) == Decimal(n)
    ensures m == n
  {
    if m >= 10 && n >= 10 {
      var a, b := Decimal(m / 10), Decimal(n / 10);
      assert a == Decimal(m)[..|Decimal(m)| - 1] && b == Decimal(n)[..|Decimal(n)| - 1];
      assert Decimal(m)[|Decimal(m)| - 1] == Decimal(n)[|Decimal(n)| - 1];
      DecimalInjective(m / 10, n / 10);
    } else if m >= 10 {
      DecimalIsDigits(m / 10);
    } else if n >= 10 {
      DecimalIsDigits(n / 10);
    } else {
      assert Decimal(m)[0] == Decimal(n)[0];
    }
  }

  /** Number of leading characters of `s` that satisfy `p`. */
  function Leading(s: string, p: char -> bool): (k: nat)
    ensures k <= |s|
    ensures forall i | 0 <= i < k :: p(s[i])
    ensures k < |s| ==> !p(s[k])
  {
    if s == [] || !p(s[0]) then 0 else 1 + Leading(s[1..], p)
  }

  lemma LeadingIs(s: string, p: char -> bool, k: nat)
    requires k <= |s| && (forall i | 0 <= i < k :: p(s[i])) && (k < |s| ==> !p(s[k]))
    ensures Leading(s, p) == k
  {}

  lemma CutAt(s: string, i: nat)
    requires i < |s|
    ensures s == s[..i] + ([s[i]] + s[i + 1..])
  {}

  lemma CutBefore(s: string, i: nat)
    requires i <= |s|
    ensures s == s[..i] + s[i..]
  {}

  /** A run of the class ends where the next text begins. */
  lemma LeadingRun(a: string, b: string, p: char -> bool)
    requires (forall i | 0 <= i < |a| :: p(a[i])) && (b != [] ==> !p(b[0]))
    ensures Leading(a + b, p) == |a| && (a + b)[..|a|] == a && (a + b)[|a|..] == b
  {
    var s := a + b;
    assert forall i | 0 <= i < |a| :: s[i] == a[i];
    LeadingIs(s, p, |a|);
  }

  /** Position of the last `c`, or -1. */
  function LastIndex(s: string, c: char): (k: int)
    ensures -1 <= k < |s|
    ensures k >= 0 ==> s[k] == c
    ensures forall i | k < i < |s| :: s[i] != c
  {
    if s == [] then -1
    else if s[|s| - 1] == c then |s| - 1
    else LastIndex(s[..|s| - 1], c)
  }

  /** Position of the first `c` at or after `i`, or the end. */
  function Find(s: string, c: char, i: nat := 0): (k: nat)
    requires i <= |s|
    ensures i <= k <= |s|
    ensures k < |s| ==> s[k] == c
    ensures forall j | i <= j < k :: s[j] != c
    decreases |s| - i
  {
    if i == |s| || s[i] == c then i else Find(s, c, i + 1)
  }

  lemma FindIs(s: string, c: char, k: nat)
    requires k <= |s| && (k < |s| ==> s[k] == c)
    requires forall j | 0 <= j < k :: s[j] != c
    ensures Find(s, c) == k
  {
    var f := Find(s, c);
    assert f < |s| ==> s[f] == c;
  }

  lemma FindAbsent(s: string, c: char)
    requires c !in s
    ensures Find(s, c) == |s|
  {
    FindIs(s, c, |s|);
  }

  /** The first separator is the one after a text without it. */
  lemma FindFirst(a: string, c: char, b: string)
    requires c !in a
    ensures var s := a + ([c] + b);
            Find(s, c) == |a| && s[..|a|] == a && s[|a| + 1..] == b
  {
    var s := a + ([c] + b);
    assert s[|a|] == c && forall i | 0 <= i < |a| :: s[i] == a[i];
    FindIs(s, c, |a|);
  }

  /** The parts between occurrences of `c`; one part when there is none. */
  function SplitOn(s: string, c: char): seq<string>
    decreases |s|
  {
    var k := Find(s, c);
    if k == |s| then [s] else [s[..k]] + SplitOn(s[k + 1..], c)
  }

  lemma SplitHead(s: string, c: char)
    requires Find(s, c) < |s|
    ensures SplitOn(s, c)[0] == s[..Find(s, c)] && SplitOn(s, c)[1..] == SplitOn(s[Find(s, c) + 1..], c)
  {
    var k := Find(s, c);
    Prepended(s[..k], SplitOn(s[k + 1..], c));
  }

  lemma Prepended<T>(x: T, rest: seq<T>)
    ensures ([x] + rest)[0] == x && ([x] + rest)[1..] == rest
  {}

  lemma SplitFirst(a: string, c: char, b: string)
    requires c !in a
    ensures SplitOn(a + ([c] + b), c) == [a] + SplitOn(b, c)
  {
    FindFirst(a, c, b);
  }

  lemma Associative<T>(a: seq<T>, b: seq<T>, c: seq<T>)
    ensures (a + b) + c == a + (b + c)
  {}
}
