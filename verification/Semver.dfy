/** The version pattern of the compatibility ledger against the grammar of sections 2, 9 and 10 of
    Semantic Versioning 2.0.0. */
module Semver {
  import opened Wrappers
  import opened Regex
  import opened Strings

  predicate IsIdentifierChar(c: char) {
    IsDigit(c) || 'a' <= c <= 'z' || 'A' <= c <= 'Z' || c == '-'
  }

  /** An identifier: ASCII alphanumerics and hyphens, not empty. */
  predicate Identifier(s: string) {
    s != [] && forall i | 0 <= i < |s| :: IsIdentifierChar(s[i])
  }

  /** A number without leading zeroes. */
  predicate Numeric(s: string) {
    Digits(s) && (s[0] == '0' ==> s == "0")
  }

  /** A prerelease identifier: numeric identifiers have no leading zeroes. */
  predicate PrereleaseIdentifier(s: string) {
    Identifier(s) && (Digits(s) ==> Numeric(s))
  }

  /** The classes by code point. */
  lemma ClassesAre(c: char)
    ensures IsIdentifierChar(c) <==>
            48 <= c as int <= 57 || 65 <= c as int <= 90 || 97 <= c as int <= 122 || c as int == 45
    ensures IsDigit(c) <==> 48 <= c as int <= 57
  {}

  // ----- The grammar

  datatype Version = Version(core: seq<string>, prerelease: Option<seq<string>>, build: Option<seq<string>>)

  function Join(parts: seq<string>): string
    requires parts != []
  {
    if |parts| == 1 then parts[0] else parts[0] + "." + Join(parts[1..])
  }

  predicate WellFormed(v: Version) {
    && |v.core| == 3 && (forall i | 0 <= i < 3 :: Numeric(v.core[i]))
    && (v.prerelease.Some? ==> v.prerelease.value != [] && forall i | 0 <= i < |v.prerelease.value| ::
          PrereleaseIdentifier(v.prerelease.value[i]))
    && (v.build.Some? ==> v.build.value != [] && forall i | 0 <= i < |v.build.value| :: Identifier(v.build.value[i]))
  }

  function Suffix(mark: char, parts: Option<seq<string>>): string
    requires parts.Some? ==> parts.value != []
  {
    if parts.Some? then [mark] + Join(parts.value) else ""
  }

  function Render(v: Version): string
    requires WellFormed(v)
  {
    Join(v.core) + Suffix('-', v.prerelease) + Suffix('+', v.build)
  }

  // ----- The pattern

  predicate IsPositiveDigit(c: char) {
    '1' <= c <= '9'
  }

  predicate IsNonDigit(c: char) {
    IsIdentifierChar(c) && !IsDigit(c)
  }

  ghost const NUMBER := Or(Literal('0'), Then(One(IsPositiveDigit), Star(One(IsDigit))))
  ghost const MIXED := Containing(IsIdentifierChar, IsNonDigit)
  ghost const PRERELEASE_IDENTIFIER := Or(NUMBER, MIXED)
  ghost const BUILD_IDENTIFIER := Plus(One(IsIdentifierChar))

  ghost function Dotted(item: Regex): Regex {
    Then(item, Repeats('.', item))
  }

  ghost function Marked(mark: char, item: Regex): Regex {
    Optional(Then(Literal(mark), Dotted(item)))
  }

  ghost const CORE := Then(NUMBER, Then(Literal('.'), Then(NUMBER, Then(Literal('.'), NUMBER))))
  ghost const TAIL := Then(Marked('-', PRERELEASE_IDENTIFIER), Marked('+', BUILD_IDENTIFIER))
  ghost const SEMVER := Then(CORE, TAIL)

  lemma NumberPattern(s: string)
    ensures Accepts(NUMBER, s) <==> Numeric(s)
  {
    HeadAndTail(IsPositiveDigit, Star(One(IsDigit)), s);
    if s != "" {
      StarOfClass(IsDigit, s[1..]);
      assert forall i | 1 <= i < |s| :: s[i] == s[1..][i - 1];
      assert s[0] == '0' && |s| == 1 ==> s == "0";
    }
  }

  /** Some character is not a digit, and all are identifier characters. */
  lemma MixedPattern(s: string)
    ensures Accepts(MIXED, s) <==> Identifier(s) && !Digits(s)
  {
    if Accepts(MIXED, s) {
      var i := ContainingSplits(IsIdentifierChar, IsNonDigit, s);
      assert forall j | i < j < |s| :: s[j] == s[i + 1..][j - i - 1];
      assert forall j | 0 <= j < i :: s[j] == s[..i][j];
    }
    if Identifier(s) && !Digits(s) {
      var i :| 0 <= i < |s| && !IsDigit(s[i]);
      ContainingJoins(IsIdentifierChar, IsNonDigit, s, i);
    }
  }

  lemma PrereleasePattern(s: string)
    ensures Accepts(PRERELEASE_IDENTIFIER, s) <==> PrereleaseIdentifier(s)
  {
    NumberPattern(s);
    MixedPattern(s);
  }

  lemma BuildPattern(s: string)
    ensures Accepts(BUILD_IDENTIFIER, s) <==> Identifier(s)
  {
    HeadAndTail(IsIdentifierChar, Star(One(IsIdentifierChar)), s);
    if s != "" {
      StarOfClass(IsIdentifierChar, s[1..]);
      assert forall i | 1 <= i < |s| :: s[i] == s[1..][i - 1];
    }
  }

  lemma {:induction false} JoinIsLed(parts: seq<string>)
    requires parts != []
    ensures Join(parts) == parts[0] + Led('.', parts[1..])
  {
    if |parts| > 1 {
      JoinIsLed(parts[1..]);
      assert "." + (parts[1] + Led('.', parts[2..])) == "." + parts[1] + Led('.', parts[2..]);
      assert parts[1..][1..] == parts[2..];
      assert Led('.', parts[1..]) == "." + parts[1] + Led('.', parts[1..][1..]);
      assert parts[0] + "." + Join(parts[1..]) == parts[0] + ("." + Join(parts[1..]));
    }
  }

  ghost predicate Listed(item: Regex, parts: Option<seq<string>>) {
    parts.Some? ==> parts.value != [] && forall i | 0 <= i < |parts.value| :: Accepts(item, parts.value[i])
  }

  lemma DottedSplit(item: Regex, s: string) returns (parts: seq<string>)
    requires Accepts(Dotted(item), s)
    ensures Listed(item, Some(parts)) && Join(parts) == s
  {
    var first, rest := Splits(item, Repeats('.', item), s);
    var more := RepeatsSplit('.', item, rest);
    parts := [first] + more;
    assert parts[1..] == more;
    JoinIsLed(parts);
  }

  lemma DottedJoin(item: Regex, parts: seq<string>)
    requires Listed(item, Some(parts))
    ensures Accepts(Dotted(item), Join(parts))
  {
    RepeatsJoin('.', item, parts[1..]);
    Joins(item, Repeats('.', item), parts[0], Led('.', parts[1..]));
    JoinIsLed(parts);
  }

  lemma MarkedSplit(mark: char, item: Regex, s: string) returns (parts: Option<seq<string>>)
    requires Accepts(Marked(mark, item), s)
    ensures Listed(item, parts) && Suffix(mark, parts) == s
  {
    if s == "" {
      parts := None;
    } else {
      LiteralAndTail(mark, Dotted(item), s);
      var list := DottedSplit(item, s[1..]);
      parts := Some(list);
      assert s == [mark] + s[1..];
    }
  }

  lemma MarkedJoin(mark: char, item: Regex, parts: Option<seq<string>>)
    requires Listed(item, parts)
    ensures Accepts(Marked(mark, item), Suffix(mark, parts))
  {
    if parts.Some? {
      DottedJoin(item, parts.value);
      var s := Suffix(mark, parts);
      assert s[1..] == Join(parts.value);
      LiteralAndTail(mark, Dotted(item), s);
    }
  }

  lemma JoinThree(core: seq<string>)
    requires |core| == 3
    ensures Join(core) == core[0] + ("." + (core[1] + ("." + core[2])))
  {
    JoinIsLed(core);
    assert Led('.', core[1..]) == "." + core[1] + Led('.', core[2..]);
    assert Led('.', core[2..]) == "." + core[2] + "";
  }

  lemma CoreSplit(s: string) returns (core: seq<string>)
    requires Accepts(CORE, s)
    ensures |core| == 3 && Join(core) == s && forall i | 0 <= i < 3 :: Numeric(core[i])
  {
    var last := Then(Literal('.'), NUMBER);
    var a, x := Splits(NUMBER, Then(Literal('.'), Then(NUMBER, last)), s);
    LiteralAndTail('.', Then(NUMBER, last), x);
    var b, y := Splits(NUMBER, last, x[1..]);
    LiteralAndTail('.', NUMBER, y);
    core := [a, b, y[1..]];
    NumberPattern(a);
    NumberPattern(b);
    NumberPattern(y[1..]);
    assert x == "." + x[1..] && y == "." + y[1..];
    JoinThree(core);
  }

  lemma CoreJoin(core: seq<string>)
    requires |core| == 3 && forall i | 0 <= i < 3 :: Numeric(core[i])
    ensures Accepts(CORE, Join(core))
  {
    NumberPattern(core[0]);
    NumberPattern(core[1]);
    NumberPattern(core[2]);
    var last := Then(Literal('.'), NUMBER);
    var y := "." + core[2];
    assert y[1..] == core[2];
    LiteralAndTail('.', NUMBER, y);
    Joins(NUMBER, last, core[1], y);
    var x := "." + (core[1] + y);
    assert x[1..] == core[1] + y;
    LiteralAndTail('.', Then(NUMBER, last), x);
    Joins(NUMBER, Then(Literal('.'), Then(NUMBER, last)), core[0], x);
    JoinThree(core);
  }

  lemma ListedPrerelease(parts: Option<seq<string>>)
    ensures Listed(PRERELEASE_IDENTIFIER, parts) <==>
            (parts.Some? ==> parts.value != [] && forall i | 0 <= i < |parts.value| ::
                PrereleaseIdentifier(parts.value[i]))
  {
    if parts.Some? {
      forall i | 0 <= i < |parts.value|
        ensures Accepts(PRERELEASE_IDENTIFIER, parts.value[i]) <==> PrereleaseIdentifier(parts.value[i])
      {
        PrereleasePattern(parts.value[i]);
      }
    }
  }

  lemma ListedBuild(parts: Option<seq<string>>)
    ensures Listed(BUILD_IDENTIFIER, parts) <==>
            (parts.Some? ==> parts.value != [] && forall i | 0 <= i < |parts.value| :: Identifier(parts.value[i]))
  {
    if parts.Some? {
      forall i | 0 <= i < |parts.value|
        ensures Accepts(BUILD_IDENTIFIER, parts.value[i]) <==> Identifier(parts.value[i])
      {
        BuildPattern(parts.value[i]);
      }
    }
  }

  lemma SemverSplit(s: string) returns (a: string, p: string, b: string)
    requires Accepts(SEMVER, s)
    ensures s == a + p + b && Accepts(CORE, a)
    ensures Accepts(Marked('-', PRERELEASE_IDENTIFIER), p) && Accepts(Marked('+', BUILD_IDENTIFIER), b)
  {
    var tail;
    a, tail := Splits(CORE, TAIL, s);
    p, b := Splits(Marked('-', PRERELEASE_IDENTIFIER), Marked('+', BUILD_IDENTIFIER), tail);
    assert a + (p + b) == a + p + b;
  }

  lemma PatternTextIsAVersion(s: string) returns (v: Version)
    requires Accepts(SEMVER, s)
    ensures WellFormed(v) && Render(v) == s
  {
    var a, p, b := SemverSplit(s);
    var core := CoreSplit(a);
    var prerelease := MarkedSplit('-', PRERELEASE_IDENTIFIER, p);
    var build := MarkedSplit('+', BUILD_IDENTIFIER, b);
    ListedPrerelease(prerelease);
    ListedBuild(build);
    v := Version(core, prerelease, build);
  }

  lemma VersionTextIsAccepted(v: Version)
    requires WellFormed(v)
    ensures Accepts(SEMVER, Render(v))
  {
    ListedPrerelease(v.prerelease);
    ListedBuild(v.build);
    CoreJoin(v.core);
    MarkedJoin('-', PRERELEASE_IDENTIFIER, v.prerelease);
    MarkedJoin('+', BUILD_IDENTIFIER, v.build);
    JoinsThree(CORE, Marked('-', PRERELEASE_IDENTIFIER), Marked('+', BUILD_IDENTIFIER),
               Join(v.core), Suffix('-', v.prerelease), Suffix('+', v.build));
  }

  lemma JoinsThree(x: Regex, y: Regex, z: Regex, a: string, p: string, b: string)
    requires Accepts(x, a) && Accepts(y, p) && Accepts(z, b)
    ensures Accepts(Then(x, Then(y, z)), a + p + b)
  {
    Joins(y, z, p, b);
    Joins(x, Then(y, z), a, p + b);
    Associative(a, p, b);
  }

  // ----- A recogniser that reads left to right

  /** Cuts `s` at its first `mark`: what is before it, and the dotted parts after it. */
  function Cut(s: string, mark: char): (string, Option<seq<string>>) {
    var k := Find(s, mark);
    (s[..k], if k == |s| then None else Some(SplitOn(s[k + 1..], '.')))
  }

  function Parts(s: string): Version {
    var (public, build) := Cut(s, '+');
    var (core, prerelease) := Cut(public, '-');
    Version(SplitOn(core, '.'), prerelease, build)
  }

  /** What SEMVER.fullmatch decides. */
  predicate Matches(s: string) {
    WellFormed(Parts(s))
  }

  // ----- They agree

  lemma {:induction false} SplitJoin(s: string)
    ensures SplitOn(s, '.') != [] && Join(SplitOn(s, '.')) == s
    ensures forall i | 0 <= i < |SplitOn(s, '.')| :: '.' !in SplitOn(s, '.')[i]
    decreases |s|
  {
    var k := Find(s, '.');
    if k < |s| {
      SplitJoin(s[k + 1..]);
      var rest := SplitOn(s[k + 1..], '.');
      assert ([s[..k]] + rest)[1..] == rest;
      assert s == s[..k] + "." + s[k + 1..];
    }
  }

  lemma {:induction false} JoinSplit(parts: seq<string>)
    requires parts != [] && forall i | 0 <= i < |parts| :: '.' !in parts[i]
    ensures SplitOn(Join(parts), '.') == parts
  {
    if |parts| == 1 {
      FindAbsent(parts[0], '.');
    } else {
      JoinSplit(parts[1..]);
      SplitFirst(parts[0], '.', Join(parts[1..]));
      Associative(parts[0], ".", Join(parts[1..]));
      assert parts == [parts[0]] + parts[1..];
    }
  }

  lemma {:induction false} JoinChars(parts: seq<string>, c: char)
    requires parts != [] && c != '.' && forall i | 0 <= i < |parts| :: c !in parts[i]
    ensures c !in Join(parts)
  {
    if |parts| > 1 {
      JoinChars(parts[1..], c);
    }
  }

  /** Cutting undoes appending a suffix. */
  lemma CutSuffix(s: string, mark: char, parts: Option<seq<string>>)
    requires mark !in s
    requires parts.Some? ==> parts.value != [] && forall i | 0 <= i < |parts.value| :: '.' !in parts.value[i]
    ensures Cut(s + Suffix(mark, parts), mark) == (s, parts)
  {
    if parts.Some? {
      FindFirst(s, mark, Join(parts.value));
      JoinSplit(parts.value);
    } else {
      FindAbsent(s, mark);
      assert s + "" == s;
    }
  }

  /** Appending the suffix undoes cutting. */
  lemma SuffixCut(s: string, mark: char)
    ensures var (head, parts) := Cut(s, mark);
            (parts.Some? ==> parts.value != []) && s == head + Suffix(mark, parts)
  {
    var k := Find(s, mark);
    if k < |s| {
      SplitJoin(s[k + 1..]);
      assert s == s[..k] + ([mark] + s[k + 1..]);
    }
  }

  /** Every grammar version is recovered from its text: the core, prerelease and build split is unique. */
  lemma RenderedPartsAreUnique(v: Version)
    requires WellFormed(v)
    ensures Parts(Render(v)) == v
  {
    var core := Join(v.core);
    var public := core + Suffix('-', v.prerelease);
    JoinChars(v.core, '-');
    JoinChars(v.core, '+');
    if v.prerelease.Some? {
      JoinChars(v.prerelease.value, '+');
    }
    CutSuffix(public, '+', v.build);
    CutSuffix(core, '-', v.prerelease);
    JoinSplit(v.core);
  }

  lemma PartsRender(s: string)
    requires Matches(s)
    ensures Render(Parts(s)) == s
  {
    SuffixCut(s, '+');
    var (public, _) := Cut(s, '+');
    SuffixCut(public, '-');
    var (core, _) := Cut(public, '-');
    SplitJoin(core);
  }

  /** The pattern accepts exactly the texts of the grammar, and the recogniser decides both. */
  lemma PatternIsTheGrammar(s: string)
    ensures Accepts(SEMVER, s) <==> exists v: Version :: WellFormed(v) && Render(v) == s
    ensures Accepts(SEMVER, s) <==> Matches(s)
  {
    if Accepts(SEMVER, s) {
      var v := PatternTextIsAVersion(s);
      RenderedPartsAreUnique(v);
    }
    if Matches(s) {
      PartsRender(s);
    }
    if v: Version :| WellFormed(v) && Render(v) == s {
      VersionTextIsAccepted(v);
    }
  }
}
