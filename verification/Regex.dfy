/** Regular expressions and the strings they match in full. */
module Regex {

  type Chars = char -> bool

  datatype Regex =
    | Nothing
    | One(chars: Chars)
    | Then(first: Regex, second: Regex)
    | Or(left: Regex, right: Regex)
    | Star(body: Regex)

  ghost predicate Accepts(r: Regex, s: string)
    decreases r, |s|
  {
    match r
    case Nothing => s == ""
    case One(chars) => |s| == 1 && chars(s[0])
    case Then(a, b) => exists k | 0 <= k <= |s| :: Accepts(a, s[..k]) && Accepts(b, s[k..])
    case Or(a, b) => Accepts(a, s) || Accepts(b, s)
    case Star(a) => s == "" || exists k | 0 < k <= |s| :: Accepts(a, s[..k]) && Accepts(r, s[k..])
  }

  function Literal(c: char): Regex {
    One(x => x == c)
  }

  function Optional(r: Regex): Regex {
    Or(Nothing, r)
  }

  function Plus(r: Regex): Regex {
    Then(r, Star(r))
  }

  predicate All(s: string, chars: Chars) {
    forall i | 0 <= i < |s| :: chars(s[i])
  }

  lemma Joins(a: Regex, b: Regex, s: string, t: string)
    requires Accepts(a, s) && Accepts(b, t)
    ensures Accepts(Then(a, b), s + t)
  {
    var u := s + t;
    assert u[..|s|] == s && u[|s|..] == t;
  }

  lemma Splits(a: Regex, b: Regex, u: string) returns (s: string, t: string)
    requires Accepts(Then(a, b), u)
    ensures u == s + t && Accepts(a, s) && Accepts(b, t)
  {
    var k :| 0 <= k <= |u| && Accepts(a, u[..k]) && Accepts(b, u[k..]);
    s, t := u[..k], u[k..];
  }

  lemma {:induction false} StarOfClass(chars: Chars, s: string)
    ensures Accepts(Star(One(chars)), s) <==> All(s, chars)
    decreases |s|
  {
    if s != "" {
      StarOfClass(chars, s[1..]);
      assert forall k | 0 < k <= |s| :: Accepts(One(chars), s[..k]) ==> k == 1;
      if All(s, chars) {
        assert Accepts(One(chars), s[..1]) && Accepts(Star(One(chars)), s[1..]);
      }
      if Accepts(Star(One(chars)), s) {
        var k :| 0 < k <= |s| && Accepts(One(chars), s[..k]) && Accepts(Star(One(chars)), s[k..]);
        assert s[..1][0] == s[0];
        assert forall i | 1 <= i < |s| :: s[i] == s[1..][i - 1];
      }
    }
  }

  /** A class, then anything the rest accepts. */
  lemma HeadAndTail(chars: Chars, r: Regex, s: string)
    ensures Accepts(Then(One(chars), r), s) <==> s != "" && chars(s[0]) && Accepts(r, s[1..])
  {
    if Accepts(Then(One(chars), r), s) {
      var a, b := Splits(One(chars), r, s);
      assert s[1..] == b;
    }
    if s != "" && chars(s[0]) && Accepts(r, s[1..]) {
      assert s == s[..1] + s[1..];
      Joins(One(chars), r, s[..1], s[1..]);
    }
  }

  lemma LiteralAndTail(c: char, r: Regex, s: string)
    ensures Accepts(Then(Literal(c), r), s) <==> s != "" && s[0] == c && Accepts(r, s[1..])
  {
    HeadAndTail(Literal(c).chars, r, s);
  }

  /** Characters of `all`, at least one of them in `some`. */
  ghost function Containing(all: Chars, some: Chars): Regex {
    Then(Star(One(all)), Then(One(some), Star(One(all))))
  }

  lemma ContainingSplits(all: Chars, some: Chars, s: string) returns (i: nat)
    requires Accepts(Containing(all, some), s)
    ensures i < |s| && some(s[i]) && All(s[..i], all) && All(s[i + 1..], all)
  {
    var a, b := Splits(Star(One(all)), Then(One(some), Star(One(all))), s);
    HeadAndTail(some, Star(One(all)), b);
    StarOfClass(all, a);
    StarOfClass(all, b[1..]);
    i := |a|;
    assert s[..i] == a && s[i + 1..] == b[1..];
  }

  lemma ContainingJoins(all: Chars, some: Chars, s: string, i: nat)
    requires i < |s| && some(s[i]) && All(s[..i], all) && All(s[i + 1..], all)
    ensures Accepts(Containing(all, some), s)
  {
    var a, b := s[..i], s[i..];
    assert b[1..] == s[i + 1..];
    StarOfClass(all, a);
    StarOfClass(all, b[1..]);
    HeadAndTail(some, Star(One(all)), b);
    Joins(Star(One(all)), Then(One(some), Star(One(all))), a, b);
    assert s == a + b;
  }

  /** A separator and an item, any number of times. */
  ghost function Repeats(sep: char, item: Regex): Regex {
    Star(Then(Literal(sep), item))
  }

  function Led(sep: char, parts: seq<string>): string {
    if parts == [] then "" else [sep] + parts[0] + Led(sep, parts[1..])
  }

  lemma {:induction false} RepeatsSplit(sep: char, item: Regex, s: string) returns (parts: seq<string>)
    requires Accepts(Repeats(sep, item), s)
    ensures Led(sep, parts) == s && forall i | 0 <= i < |parts| :: Accepts(item, parts[i])
    decreases |s|
  {
    if s == "" {
      parts := [];
    } else {
      var head, tail := FirstRepeat(Then(Literal(sep), item), s);
      LiteralAndTail(sep, item, head);
      var rest := RepeatsSplit(sep, item, tail);
      parts := [head[1..]] + rest;
      assert parts[1..] == rest;
      assert head == [sep] + head[1..];
    }
  }

  lemma FirstRepeat(r: Regex, s: string) returns (head: string, tail: string)
    requires Accepts(Star(r), s) && s != ""
    ensures s == head + tail && head != "" && Accepts(r, head) && Accepts(Star(r), tail)
  {
    var k :| 0 < k <= |s| && Accepts(r, s[..k]) && Accepts(Star(r), s[k..]);
    head, tail := s[..k], s[k..];
  }

  lemma {:induction false} RepeatsJoin(sep: char, item: Regex, parts: seq<string>)
    requires forall i | 0 <= i < |parts| :: Accepts(item, parts[i])
    ensures Accepts(Repeats(sep, item), Led(sep, parts))
  {
    if parts != [] {
      RepeatsJoin(sep, item, parts[1..]);
      var head, tail := [sep] + parts[0], Led(sep, parts[1..]);
      assert head[1..] == parts[0];
      LiteralAndTail(sep, item, head);
      var s := head + tail;
      assert s[..|head|] == head && s[|head|..] == tail;
    }
  }

  /** A fixed text, then the rest. */
  function Worded(word: string, r: Regex): Regex {
    if word == "" then r else Then(Literal(word[0]), Worded(word[1..], r))
  }

  lemma {:induction false} WordedIff(word: string, r: Regex, s: string)
    ensures Accepts(Worded(word, r), s) <==> word <= s && Accepts(r, s[|word|..])
  {
    if word == "" {
      assert s[0..] == s;
    } else {
      LiteralAndTail(word[0], Worded(word[1..], r), s);
      if s != "" {
        WordedIff(word[1..], r, s[1..]);
        assert word <= s <==> word[0] == s[0] && word[1..] <= s[1..];
        assert word <= s ==> s[1..][|word| - 1..] == s[|word|..];
      }
    }
  }

  /** No class of the expression holds `c`. */
  ghost predicate Avoids(r: Regex, c: char) {
    match r
    case Nothing => true
    case One(chars) => !chars(c)
    case Then(a, b) => Avoids(a, c) && Avoids(b, c)
    case Or(a, b) => Avoids(a, c) && Avoids(b, c)
    case Star(a) => Avoids(a, c)
  }

  lemma {:induction false} AvoidedIsAbsent(r: Regex, c: char, s: string)
    requires Avoids(r, c) && Accepts(r, s)
    ensures c !in s
    decreases r, |s|
  {
    match r
    case Nothing =>
    case One(_) =>
    case Then(a, b) =>
      var x, y := Splits(a, b, s);
      AvoidedIsAbsent(a, c, x);
      AvoidedIsAbsent(b, c, y);
    case Or(a, b) =>
      if Accepts(a, s) { AvoidedIsAbsent(a, c, s); } else { AvoidedIsAbsent(b, c, s); }
    case Star(a) =>
      if s != "" {
        var x, y := FirstRepeat(a, s);
        AvoidedIsAbsent(a, c, x);
        AvoidedIsAbsent(r, c, y);
      }
  }
}
