/** The Python string operations the tools rely on. */
module PythonText {
  import opened Strings

  /** str.isspace and the regex class for whitespace. */
  predicate IsSpace(c: char) {
    || '\t' <= c <= '\r'
    || '\U{1c}' <= c <= ' '
    || c == '\U{85}' || c == '\U{a0}' || c == '\U{1680}'
    || '\U{2000}' <= c <= '\U{200a}'
    || c == '\U{2028}' || c == '\U{2029}' || c == '\U{202f}' || c == '\U{205f}' || c == '\U{3000}'
  }

  predicate Blank(s: string) {
    forall i | 0 <= i < |s| :: IsSpace(s[i])
  }

  /** A nonempty run of spaces. */
  predicate Gap(s: string) {
    s != "" && Blank(s)
  }

  predicate Contains(s: string, part: string) {
    exists i | 0 <= i <= |s| :: part <= s[i..]
  }

  function TrimEnd(s: string, p: char -> bool): (t: string)
    ensures t <= s
    ensures t != [] ==> !p(t[|t| - 1])
  {
    if s == [] || !p(s[|s| - 1]) then s else TrimEnd(s[..|s| - 1], p)
  }

  /** str.strip with the given class of characters. */
  function Trim(s: string, p: char -> bool): string {
    TrimEnd(s[Leading(s, p)..], p)
  }

  function Strip(s: string): string {
    Trim(s, IsSpace)
  }

  predicate IsQuote(c: char) {
    c == '"' || c == '\'' || c == '`'
  }

  function Unquote(s: string): string {
    Trim(s, IsQuote)
  }

  /** Containment is an occurrence somewhere in the text. */
  lemma ContainsIff(s: string, part: string)
    ensures Contains(s, part) <==> exists a, b :: s == a + part + b
  {
    if i :| 0 <= i <= |s| && part <= s[i..] {
      assert s == s[..i] + part + s[i..][|part|..];
    }
    if a, b :| s == a + part + b {
      assert s[|a|..] == part + b;
      assert part <= s[|a|..];
    }
  }

  lemma {:induction false} TrimEndDrops(s: string, p: char -> bool)
    ensures forall i | |TrimEnd(s, p)| <= i < |s| :: p(s[i])
  {
    if s != [] && p(s[|s| - 1]) {
      TrimEndDrops(s[..|s| - 1], p);
    }
  }

  /** Trimming takes exactly the leading and trailing characters of the class away. */
  lemma TrimIsTheMiddle(s: string, p: char -> bool)
    ensures var k, t := Leading(s, p), Trim(s, p);
            && k + |t| <= |s| && s[k..k + |t|] == t
            && (forall i | 0 <= i < k :: p(s[i])) && (forall i | k + |t| <= i < |s| :: p(s[i]))
            && (t != [] ==> !p(t[0]) && !p(t[|t| - 1]))
  {
    var k := Leading(s, p);
    TrimEndDrops(s[k..], p);
    PrefixInside(s, k, TrimEnd(s[k..], p), p);
  }

  lemma PrefixInside(s: string, k: nat, t: string, p: char -> bool)
    requires k <= |s| && t <= s[k..] && forall i | |t| <= i < |s| - k :: p(s[k..][i])
    ensures k + |t| <= |s| && s[k..k + |t|] == t && forall i | k + |t| <= i < |s| :: p(s[i])
  {
    forall i | k + |t| <= i < |s| ensures p(s[i]) {
      assert s[i] == s[k..][i - k];
    }
  }

  /** The characters with code points that Python takes for spaces. */
  lemma SpacesAre(c: char)
    ensures IsSpace(c) <==>
            c as int in {9, 10, 11, 12, 13, 28, 29, 30, 31, 32, 0x85, 0xa0, 0x1680, 0x2000, 0x2001, 0x2002, 0x2003,
                         0x2004, 0x2005, 0x2006, 0x2007, 0x2008, 0x2009, 0x200a, 0x2028, 0x2029, 0x202f, 0x205f, 0x3000}
  {}

  /** The quotes and the line breaks, by code point. */
  lemma MarksAre(c: char)
    ensures IsQuote(c) <==> c as int in {34, 39, 96}
    ensures IsLineBreak(c) <==> c as int in {10, 11, 12, 13, 28, 29, 30, 0x85, 0x2028, 0x2029}
  {}

  /** Trimming keeps a string that neither starts nor ends with the class. */
  lemma TrimKeeps(s: string, p: char -> bool)
    requires s != [] ==> !p(s[0]) && !p(s[|s| - 1])
    ensures Trim(s, p) == s
  {
    assert Leading(s, p) == 0;
    assert s[0..] == s;
  }

  /** Trimming drops leading characters of the class. */
  lemma TrimDropsLeading(a: string, s: string, p: char -> bool)
    requires forall i | 0 <= i < |a| :: p(a[i])
    ensures Trim(a + s, p) == Trim(s, p)
  {
    var k := Leading(s, p);
    LeadingIs(a + s, p, |a| + k);
    assert (a + s)[|a| + k..] == s[k..];
  }

  // ----- Lines

  /** The characters str.splitlines cuts at. */
  predicate IsLineBreak(c: char) {
    || '\n' <= c <= '\r' || '\U{1c}' <= c <= '\U{1e}'
    || c == '\U{85}' || c == '\U{2028}' || c == '\U{2029}'
  }

  predicate InLine(c: char) {
    !IsLineBreak(c)
  }

  predicate OneLine(s: string) {
    forall i | 0 <= i < |s| :: InLine(s[i])
  }

  /** str.splitlines: a carriage return and a line feed are one break, and a final break ends a line. */
  function SplitLines(text: string): seq<string>
    decreases |text|
  {
    if text == [] then []
    else
      var k := Leading(text, InLine);
      if k == |text| then [text]
      else if text[k] == '\r' && k + 1 < |text| && text[k + 1] == '\n' then [text[..k]] + SplitLines(text[k + 2..])
      else [text[..k]] + SplitLines(text[k + 1..])
  }

  function JoinLines(lines: seq<string>): string {
    if lines == [] then [] else lines[0] + "\n" + JoinLines(lines[1..])
  }

  /** Every break ends a line, unless it is a carriage return with a line feed after it. */
  lemma BreakEndsLine(line: string, c: char, rest: string)
    requires OneLine(line) && IsLineBreak(c) && (c == '\r' && rest != [] ==> rest[0] != '\n')
    ensures SplitLines(line + ([c] + rest)) == [line] + SplitLines(rest)
  {
    BreakPlaces(line, c, rest);
    BrokenAt(line + ([c] + rest), |line|);
  }

  lemma BreakPlaces(line: string, c: char, rest: string)
    requires OneLine(line) && IsLineBreak(c)
    ensures var text := line + ([c] + rest);
            && Leading(text, InLine) == |line| && text[..|line|] == line && text[|line|] == c
            && text[|line| + 1..] == rest && (rest != [] ==> text[|line| + 1] == rest[0])
  {
    LeadingRun(line, [c] + rest, InLine);
  }

  lemma BrokenAt(text: string, k: nat)
    requires k < |text| && Leading(text, InLine) == k
    requires !(text[k] == '\r' && k + 1 < |text| && text[k + 1] == '\n')
    ensures SplitLines(text) == [text[..k]] + SplitLines(text[k + 1..])
  {}

  /** The two together end one line. */
  lemma ReturnAndFeedEndLine(line: string, rest: string)
    requires OneLine(line)
    ensures SplitLines(line + ("\r\n" + rest)) == [line] + SplitLines(rest)
  {
    LeadingRun(line, "\r\n" + rest, InLine);
    var text := line + ("\r\n" + rest);
    assert text[|line|] == '\r' && text[|line| + 1] == '\n';
    assert text[|line| + 2..] == rest;
  }

  /** A text without breaks is one line, or none. */
  lemma LastLine(line: string)
    requires OneLine(line)
    ensures SplitLines(line) == if line == [] then [] else [line]
  {
    LeadingRun(line, [], InLine);
    assert line + [] == line;
  }

  lemma SplitFirstLine(line: string, rest: string)
    requires OneLine(line)
    ensures SplitLines(line + "\n" + rest) == [line] + SplitLines(rest)
  {
    var text := line + "\n" + rest;
    assert text[|line|] == '\n' && forall i | 0 <= i < |line| :: text[i] == line[i];
    LeadingIs(text, InLine, |line|);
    assert text[..|line|] == line && text[|line| + 1..] == rest;
  }

  /** Lines that hold no break come back from their text, whatever text follows. */
  lemma {:induction false} JoinedLinesSplit(lines: seq<string>, rest: string)
    requires forall i | 0 <= i < |lines| :: OneLine(lines[i])
    ensures SplitLines(JoinLines(lines) + rest) == lines + SplitLines(rest)
  {
    if lines == [] {
      assert JoinLines(lines) + rest == rest;
    } else {
      var tail := JoinLines(lines[1..]) + rest;
      JoinedLinesSplit(lines[1..], rest);
      SplitFirstLine(lines[0], tail);
      Associative(lines[0] + "\n", JoinLines(lines[1..]), rest);
      Associative([lines[0]], lines[1..], SplitLines(rest));
      assert lines == [lines[0]] + lines[1..];
    }
  }
}
