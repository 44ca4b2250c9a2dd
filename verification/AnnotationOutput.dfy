/** GitHub Actions annotations: chained escaping equals one reversible pass, and an annotation line
    can be read back in only one way. */
module AnnotationOutput {
  import opened Strings

  /** str.replace for one character. */
  function Replace(s: string, c: char, text: string): string {
    if s == [] then [] else ReplaceChar(s[0], c, text) + Replace(s[1..], c, text)
  }

  function ReplaceChar(x: char, c: char, text: string): string {
    if x == c then text else [x]
  }

  /** The tool's chain of replacements. */
  function Escape(value: string, property: bool): string {
    var escaped := Replace(Replace(Replace(value, '%', "%25"), '\r', "%0D"), '\n', "%0A");
    if property then Replace(Replace(escaped, ':', "%3A"), ',', "%2C") else escaped
  }

  /** One character at a time. */
  function EscapeChar(c: char, property: bool): string {
    if c == '%' then "%25"
    else if c == '\r' then "%0D"
    else if c == '\n' then "%0A"
    else if property && c == ':' then "%3A"
    else if property && c == ',' then "%2C"
    else [c]
  }

  function EscapeEach(s: string, property: bool): string {
    if s == [] then [] else EscapeChar(s[0], property) + EscapeEach(s[1..], property)
  }

  function HexValue(c: char): (v: int)
    ensures -1 <= v < 16
  {
    if '0' <= c <= '9' then c as int - '0' as int
    else if 'A' <= c <= 'F' then c as int - 'A' as int + 10
    else -1
  }

  /** Percent-decoding. */
  function Unescape(s: string): string
    decreases |s|
  {
    if s == [] then []
    else if |s| >= 3 && s[0] == '%' && HexValue(s[1]) >= 0 && HexValue(s[2]) >= 0 then
      [(HexValue(s[1]) * 16 + HexValue(s[2])) as char] + Unescape(s[3..])
    else [s[0]] + Unescape(s[1..])
  }

  lemma ReplaceHead(s: string, c: char, text: string)
    requires s != []
    ensures Replace(s, c, text) == ReplaceChar(s[0], c, text) + Replace(s[1..], c, text)
  {}

  lemma {:induction false} ReplaceConcat(a: string, b: string, c: char, text: string)
    ensures Replace(a + b, c, text) == Replace(a, c, text) + Replace(b, c, text)
  {
    if a == [] {
      assert a + b == b;
    } else {
      ReplaceConcat(a[1..], b, c, text);
      ReplaceHead(a, c, text);
      ReplaceHead(a + b, c, text);
      assert (a + b)[1..] == a[1..] + b;
      Associative(ReplaceChar(a[0], c, text), Replace(a[1..], c, text), Replace(b, c, text));
    }
  }

  lemma {:induction false} ReplaceAbsent(s: string, c: char, text: string)
    requires c !in s
    ensures Replace(s, c, text) == s
  {
    if s != [] {
      ReplaceAbsent(s[1..], c, text);
    }
  }

  lemma ReplaceOne(x: char, c: char, text: string)
    ensures Replace([x], c, text) == if x == c then text else [x]
  {
    assert [x][1..] == [];
    assert text + [] == text && [x] + [] == [x];
  }

  lemma EscapeConcat(a: string, b: string, property: bool)
    ensures Escape(a + b, property) == Escape(a, property) + Escape(b, property)
  {
    ReplaceConcat(a, b, '%', "%25");
    var a1, b1 := Replace(a, '%', "%25"), Replace(b, '%', "%25");
    ReplaceConcat(a1, b1, '\r', "%0D");
    var a2, b2 := Replace(a1, '\r', "%0D"), Replace(b1, '\r', "%0D");
    ReplaceConcat(a2, b2, '\n', "%0A");
    var a3, b3 := Replace(a2, '\n', "%0A"), Replace(b2, '\n', "%0A");
    ReplaceConcat(a3, b3, ':', "%3A");
    ReplaceConcat(Replace(a3, ':', "%3A"), Replace(b3, ':', "%3A"), ',', "%2C");
  }

  lemma EscapeOne(c: char, property: bool)
    ensures Escape([c], property) == EscapeChar(c, property)
  {
    ReplaceOne(c, '%', "%25");
    var s1 := Replace([c], '%', "%25");
    if c == '\r' { ReplaceOne(c, '\r', "%0D"); } else { ReplaceAbsent(s1, '\r', "%0D"); }
    var s2 := Replace(s1, '\r', "%0D");
    if c == '\n' { ReplaceOne(c, '\n', "%0A"); } else { ReplaceAbsent(s2, '\n', "%0A"); }
    var s3 := Replace(s2, '\n', "%0A");
    if c == ':' { ReplaceOne(c, ':', "%3A"); } else { ReplaceAbsent(s3, ':', "%3A"); }
    var s4 := Replace(s3, ':', "%3A");
    if c == ',' { ReplaceOne(c, ',', "%2C"); } else { ReplaceAbsent(s4, ',', "%2C"); }
  }

  /** The chained replacements equal one pass over the characters. */
  lemma {:induction false} EscapeIsOnePass(s: string, property: bool)
    ensures Escape(s, property) == EscapeEach(s, property)
  {
    if s != [] {
      EscapeIsOnePass(s[1..], property);
      EscapeOne(s[0], property);
      EscapeConcat([s[0]], s[1..], property);
      assert s == [s[0]] + s[1..];
    }
  }

  lemma UnescapeOne(c: char, property: bool, rest: string)
    ensures Unescape(EscapeChar(c, property) + rest) == [c] + Unescape(rest)
  {
    var e := EscapeChar(c, property);
    var s := e + rest;
    if |e| == 3 {
      assert s[0] == '%' && s[1] == e[1] && s[2] == e[2] && s[3..] == rest;
    } else {
      assert s[0] == c && s[1..] == rest;
    }
  }

  lemma {:induction false} UnescapeEach(s: string, property: bool)
    ensures Unescape(EscapeEach(s, property)) == s
  {
    if s != [] {
      UnescapeEach(s[1..], property);
      UnescapeOne(s[0], property, EscapeEach(s[1..], property));
    }
  }

  /** Percent-decoding undoes the escaping, on every text. */
  lemma EscapingIsReversible(s: string, property: bool)
    ensures Unescape(Escape(s, property)) == s
  {
    EscapeIsOnePass(s, property);
    UnescapeEach(s, property);
  }

  lemma {:induction false} EscapedIsClean(s: string, property: bool)
    ensures '\r' !in EscapeEach(s, property) && '\n' !in EscapeEach(s, property)
    ensures property ==> ':' !in EscapeEach(s, property) && ',' !in EscapeEach(s, property)
  {
    if s != [] {
      EscapedIsClean(s[1..], property);
      var head, rest := EscapeChar(s[0], property), EscapeEach(s[1..], property);
      assert forall c :: c in head + rest <==> c in head || c in rest;
    }
  }

  predicate Special(c: char, property: bool) {
    c in {'%', '\r', '\n'} || (property && c in {':', ','})
  }

  lemma {:induction false} EachIsLonger(s: string, property: bool)
    ensures |EscapeEach(s, property)| >= |s|
    ensures EscapeEach(s, property) == s <==> forall i | 0 <= i < |s| :: !Special(s[i], property)
  {
    if s != [] {
      EachIsLonger(s[1..], property);
      assert s == [s[0]] + s[1..];
      assert forall i | 0 <= i < |s| :: s[i] == if i == 0 then s[0] else s[1..][i - 1];
    }
  }

  /** Escaping leaves a text alone exactly when it holds none of the special characters. */
  lemma EscapesOnlySpecials(s: string, property: bool)
    ensures Escape(s, property) == s <==> forall i | 0 <= i < |s| :: !Special(s[i], property)
  {
    EscapeIsOnePass(s, property);
    EachIsLonger(s, property);
  }

  // ----- The annotation line

  /** A prefix, the parts up to their separators, and the rest. */
  function Line(path: string, line: string, message: string): string {
    "::error file=" + (path + [','] + ("line=" + (line + [':'] + ([':'] + message))))
  }

  /** `line` is the finding's line number; the message already carries its rule. */
  function Annotation(path: string, line: nat, message: string): string {
    Line(Escape(path, true), Decimal(line), Escape(message, false))
  }

  /** The first `c` divides a string in one way. */
  lemma FirstDivides(a: string, b: string, a': string, b': string, c: char)
    requires a + [c] + b == a' + [c] + b' && c !in a && c !in a'
    ensures a == a' && b == b'
  {
    var s := a + [c] + b;
    assert s[|a|] == c && s[|a'|] == c;
    assert forall j | 0 <= j < |a| :: s[j] == a[j];
    assert forall j | 0 <= j < |a'| :: s[j] == a'[j];
    assert a == s[..|a|] && a' == s[..|a'|];
    assert b == s[|a| + 1..] && b' == s[|a'| + 1..];
  }

  lemma PrefixCancels(a: string, b: string, b': string)
    requires a + b == a + b'
    ensures b == b'
  {
    assert b == (a + b)[|a|..] && b' == (a + b')[|a|..];
  }

  lemma LineIsUnambiguous(p: string, n: string, m: string, p': string, n': string, m': string)
    requires Line(p, n, m) == Line(p', n', m')
    requires ',' !in p && ',' !in p' && ':' !in n && ':' !in n'
    ensures p == p' && n == n' && m == m'
  {
    var rest, rest' := n + [':'] + ([':'] + m), n' + [':'] + ([':'] + m');
    PrefixCancels("::error file=", p + [','] + ("line=" + rest), p' + [','] + ("line=" + rest'));
    FirstDivides(p, "line=" + rest, p', "line=" + rest', ',');
    PrefixCancels("line=", rest, rest');
    FirstDivides(n, [':'] + m, n', [':'] + m', ':');
    PrefixCancels([':'], m, m');
  }

  /** Paths, line numbers and messages cannot be confused, whatever characters they hold. */
  lemma AnnotationIsUnambiguous(p: string, n: nat, m: string, p': string, n': nat, m': string)
    requires Annotation(p, n, m) == Annotation(p', n', m')
    ensures p == p' && n == n' && m == m'
  {
    forall x | x in {p, p'} ensures ',' !in Escape(x, true) {
      EscapeIsOnePass(x, true);
      EscapedIsClean(x, true);
    }
    DecimalIsDigits(n);
    DecimalIsDigits(n');
    LineIsUnambiguous(Escape(p, true), Decimal(n), Escape(m, false), Escape(p', true), Decimal(n'), Escape(m', false));
    DecimalInjective(n, n');
    EscapingIsReversible(p, true);
    EscapingIsReversible(p', true);
    EscapingIsReversible(m, false);
    EscapingIsReversible(m', false);
  }
}
