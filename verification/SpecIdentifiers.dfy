/** The identifiers of requirements and acceptance criteria and the lines that define them. The class
    of digits is a parameter, since Python's `\d` holds more than the ASCII digits. */
module SpecIdentifiers {
  import opened Regex
  import opened Strings
  import opened PythonText
  import opened SpecCorpus

  predicate IsTag(c: char) {
    'A' <= c <= 'Z' || IsDigit(c)
  }

  lemma TagsAre(c: char)
    ensures IsTag(c) <==> 65 <= c as int <= 90 || 48 <= c as int <= 57
  {}

  /** Tags joined by hyphens and a three-digit number. */
  ghost function Name(digit: Chars): Regex {
    Then(Plus(One(IsTag)),
        Then(Repeats('-', Plus(One(IsTag))), Worded("-", Then(One(digit), Then(One(digit), One(digit))))))
  }

  ghost function RequirementId(digit: Chars): Regex {
    Worded("REQ-", Name(digit))
  }

  ghost function CriterionId(digit: Chars): Regex {
    Worded("AC-", Then(Name(digit), Worded(".", Plus(One(digit)))))
  }

  // ----- Parents

  lemma NumberIsDigits(digit: Chars, s: string)
    ensures Accepts(Plus(One(digit)), s) <==> s != "" && All(s, digit)
  {
    HeadAndTail(digit, Star(One(digit)), s);
    if s != "" {
      StarOfClass(digit, s[1..]);
      assert forall i | 1 <= i < |s| :: s[i] == s[1..][i - 1];
    }
  }

  /** A criterion's text is its name and its number. */
  lemma CriterionSplits(digit: Chars, s: string) returns (name: string, number: string)
    requires Accepts(CriterionId(digit), s)
    ensures s == "AC-" + name + "." + number && Accepts(Name(digit), name) && number != "" && All(number, digit)
  {
    WordedIff("AC-", Then(Name(digit), Worded(".", Plus(One(digit)))), s);
    var rest;
    name, rest := Splits(Name(digit), Worded(".", Plus(One(digit))), s[3..]);
    WordedIff(".", Plus(One(digit)), rest);
    number := rest[1..];
    NumberIsDigits(digit, number);
    assert rest == "." + number && s == "AC-" + (name + rest);
    assert "AC-" + (name + ("." + number)) == "AC-" + name + "." + number;
  }

  /** The parent of a criterion is a requirement. */
  lemma ParentIsRequirement(digit: Chars, s: string)
    requires Accepts(CriterionId(digit), s) && !digit('.')
    ensures Accepts(RequirementId(digit), AcceptanceParent(s))
  {
    var name, number := CriterionSplits(digit, s);
    ParentOfCriterion(name, number);
    WordedIff("REQ-", Name(digit), "REQ-" + name);
    assert ("REQ-" + name)[4..] == name;
  }

  lemma CriterionOf(digit: Chars, name: string, number: string)
    requires Accepts(Name(digit), name) && number != "" && All(number, digit)
    ensures Accepts(CriterionId(digit), "AC-" + (name + ("." + number)))
  {
    NumberIsDigits(digit, number);
    var rest := "." + number;
    assert rest[1..] == number;
    WordedIff(".", Plus(One(digit)), rest);
    Joins(Name(digit), Worded(".", Plus(One(digit))), name, rest);
    var s := "AC-" + (name + rest);
    assert s[3..] == name + rest;
    WordedIff("AC-", Then(Name(digit), Worded(".", Plus(One(digit)))), s);
  }

  /** Every requirement has a criterion it would be the parent of. */
  lemma RequirementIsParent(digit: Chars, r: string) returns (s: string)
    requires Accepts(RequirementId(digit), r) && digit('1')
    ensures Accepts(CriterionId(digit), s) && AcceptanceParent(s) == r
  {
    WordedIff("REQ-", Name(digit), r);
    var name := r[4..];
    CriterionOf(digit, name, "1");
    ParentOfCriterion(name, "1");
    s := "AC-" + (name + ("." + "1"));
    assert "AC-" + name + "." + "1" == s;
    assert r == "REQ-" + name;
  }

  /** The requirements are exactly the parents of criteria. */
  lemma RequirementsAreTheParents(digit: Chars, r: string)
    requires digit('1') && !digit('.')
    ensures Accepts(RequirementId(digit), r) <==>
            exists s :: Accepts(CriterionId(digit), s) && AcceptanceParent(s) == r
  {
    if Accepts(RequirementId(digit), r) {
      var s := RequirementIsParent(digit, r);
    }
    if s :| Accepts(CriterionId(digit), s) && AcceptanceParent(s) == r {
      ParentIsRequirement(digit, s);
    }
  }

  // ----- Defining lines

  predicate Starts(s: string) {
    s != "" && !IsSpace(s[0])
  }

  /** `### id: text` */
  ghost predicate RequirementLine(digit: Chars, line: string, id: string) {
    exists a, b, rest :: RequirementShape(digit, line, id, a, b, rest)
  }

  ghost predicate RequirementShape(digit: Chars, line: string, id: string, a: string, b: string, rest: string) {
    && Accepts(RequirementId(digit), id) && Gap(a) && Gap(b) && Starts(rest)
    && line == "###" + (a + (id + ([':'] + (b + rest))))
  }

  /** `- **id:** text`, indented or not. */
  ghost predicate CriterionLine(digit: Chars, line: string, id: string) {
    exists a, b, c, rest :: CriterionShape(digit, line, id, a, b, c, rest)
  }

  ghost predicate CriterionShape(
    digit: Chars, line: string, id: string, a: string, b: string, c: string, rest: string)
  {
    && Accepts(CriterionId(digit), id) && Blank(a) && Gap(b) && Gap(c) && Starts(rest)
    && line == a + ("-" + (b + ("**" + (id + ([':'] + ("**" + (c + rest)))))))
  }

  /** No line defines a requirement and a criterion. */
  lemma NoLineDefinesBoth(digit: Chars, line: string, req: string, ac: string)
    requires RequirementLine(digit, line, req)
    ensures !CriterionLine(digit, line, ac)
  {
    assert line[0] == '#';
    if a, b, c, rest :| CriterionShape(digit, line, ac, a, b, c, rest) {
      CriterionStart(digit, line, ac, a, b, c, rest);
    }
  }

  lemma CriterionStart(digit: Chars, line: string, id: string, a: string, b: string, c: string, rest: string)
    requires CriterionShape(digit, line, id, a, b, c, rest)
    ensures line[0] == '-' || IsSpace(line[0])
  {
    if a != "" {
      assert line[0] == a[0] && IsSpace(a[0]);
    }
  }

  lemma NameHasNoColon(digit: Chars)
    requires !digit(':')
    ensures Avoids(Name(digit), ':')
  {
    var tag, three := Plus(One(IsTag)), Then(One(digit), Then(One(digit), One(digit)));
    assert Avoids(One(IsTag), ':') && Avoids(Star(One(IsTag)), ':');
    assert Avoids(tag, ':');
    assert Avoids(Literal('-'), ':');
    assert Avoids(Then(Literal('-'), tag), ':');
    assert Avoids(Repeats('-', tag), ':');
    assert Avoids(One(digit), ':');
    assert Avoids(Then(One(digit), One(digit)), ':');
    assert Avoids(three, ':');
    HyphenAvoids(three);
  }

  lemma HyphenAvoids(r: Regex)
    requires Avoids(r, ':')
    ensures Avoids(Worded("-", r), ':')
  {
    assert "-"[1..] == "";
    assert Worded("-", r) == Then(Literal('-'), r);
  }

  lemma RequirementIdFacts(digit: Chars, id: string)
    requires Accepts(RequirementId(digit), id) && !digit(':')
    ensures ':' !in id && Starts(id)
  {
    WordedIff("REQ-", Name(digit), id);
    NameHasNoColon(digit);
    AvoidedIsAbsent(Name(digit), ':', id[4..]);
    assert id == "REQ-" + id[4..];
    assert id[0] == 'R';
  }

  /** The text between the gap and the colon. */
  lemma BetweenGapAndColon(a: string, id: string, tail: string)
    requires Blank(a) && Starts(id) && ':' !in id
    ensures var s := a + (id + ([':'] + tail));
            var t := s[Leading(s, IsSpace)..];
            t[..Find(t, ':')] == id
  {
    LeadingRun(a, id + ([':'] + tail), IsSpace);
    FindFirst(id, ':', tail);
  }

  /** A line defines at most one requirement. */
  lemma RequirementLineIsUnique(digit: Chars, line: string, id: string, id': string)
    requires RequirementLine(digit, line, id) && RequirementLine(digit, line, id') && !digit(':')
    ensures id == id'
  {
    var a, b, rest :| RequirementShape(digit, line, id, a, b, rest);
    var a', b', rest' :| RequirementShape(digit, line, id', a', b', rest');
    RequirementShapeReads(digit, line, id, a, b, rest);
    RequirementShapeReads(digit, line, id', a', b', rest');
  }

  lemma RequirementShapeReads(digit: Chars, line: string, id: string, a: string, b: string, rest: string)
    requires RequirementShape(digit, line, id, a, b, rest) && !digit(':')
    ensures |line| >= 3
    ensures var t := line[3..][Leading(line[3..], IsSpace)..];
            t[..Find(t, ':')] == id
  {
    RequirementIdFacts(digit, id);
    assert line[3..] == a + (id + ([':'] + (b + rest)));
    BetweenGapAndColon(a, id, b + rest);
  }
}
