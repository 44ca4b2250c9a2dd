/** The specification linter over a whole corpus: identifiers, acceptance criteria and design
    references, for any two line patterns that recognise requirement headings and criteria. */
module SpecCorpus {
  import opened Wrappers
  import opened SpecMetadata
  import opened PythonText
  import opened Strings

  datatype Doc = Doc(parts: seq<string>, text: string) {
    function Lines(): seq<string> {
      SplitLines(text)
    }
  }

  type Pattern = string -> Option<string>

  /** What a line defines, if anything: a requirement or an acceptance criterion. */
  datatype Patterns = Patterns(heading: Pattern, criterion: Pattern)

  /** The identifiers the lines define, with line numbers. */
  function Matched(pattern: Pattern, lines: seq<string>): seq<(string, nat)> {
    if lines == [] then []
    else
      var n := |lines| - 1;
      Matched(pattern, lines[..n])
      + match pattern(lines[n]) case Some(id) => [(id, n + 1)] case None => []
  }

  method CollectRequirementIds(p: Patterns, text: string)
    returns (reqs: seq<(string, nat)>, criteria: seq<(string, nat)>)
    ensures reqs == Matched(p.heading, SplitLines(text)) && criteria == Matched(p.criterion, SplitLines(text))
  {
    var lines := SplitLines(text);
    reqs, criteria := [], [];
    for k := 0 to |lines|
      invariant reqs == Matched(p.heading, lines[..k])
      invariant criteria == Matched(p.criterion, lines[..k])
    {
      assert lines[..k + 1][..k] == lines[..k];
      var heading := p.heading(lines[k]);
      if heading.Some? {
        reqs := reqs + [(heading.value, k + 1)];
      }
      var criterion := p.criterion(lines[k]);
      if criterion.Some? {
        criteria := criteria + [(criterion.value, k + 1)];
      }
    }
    assert lines[..|lines|] == lines;
  }

  /** Exactly the matching lines are collected, each under its own number. */
  lemma {:induction false} CollectedIff(pattern: Pattern, lines: seq<string>, id: string, n: nat)
    ensures (id, n) in Matched(pattern, lines) <==> 1 <= n <= |lines| && pattern(lines[n - 1]) == Some(id)
  {
    if lines != [] {
      CollectedIff(pattern, lines[..|lines| - 1], id, n);
    }
  }

  datatype Role = Skipped | Index(system: string) | Requirements(system: string) | Design(system: string)

  function RoleOf(d: Doc): Role {
    match ClassifyPath(d.parts)
    case (Requirement, Some(system)) => Requirements(system)
    case (SystemDesign, Some(system)) => Design(system)
    case (SystemIndex, Some(system)) => if IsIndexPage(d.parts) then Index(system) else Skipped
    case _ => Skipped
  }

  /** What the linter reads off one document before it relates documents to each other: its role,
      its metadata violations, whether its identifiers enter the corpus, and the requirements a
      design names. */
  datatype Facts = Facts(
    role: Role, reported: seq<PageViolation>, defines: bool,
    reqs: seq<(string, nat)>, criteria: seq<(string, nat)>, named: seq<string>)

  function NamedRequirements(m: Metadata): seq<string> {
    if "requirements" in m && m["requirements"].Items? then m["requirements"].items else []
  }

  function FactsOf(p: Patterns, d: Doc): Facts {
    var role := RoleOf(d);
    var parsed := Parse(d.Lines(), true);
    Facts(role,
          if role.Skipped? then [] else LinterViolations(d.parts, d.Lines()),
          role.Requirements? && parsed.Parsed?,
          Matched(p.heading, d.Lines()), Matched(p.criterion, d.Lines()),
          if role.Design? && parsed.Parsed? then NamedRequirements(parsed.metadata) else [])
  }

  /** What is read off a document, spelled out on its path and its lines. */
  lemma FactsAre(p: Patterns, d: Doc)
    ensures var f, lines := FactsOf(p, d), d.Lines();
            var (kind, system) := ClassifyPath(d.parts);
            var parsed := Parse(lines, true);
            && (forall s :: f.role == Requirements(s) <==> kind == Requirement && system == Some(s))
            && (forall s :: f.role == Design(s) <==> kind == SystemDesign && system == Some(s))
            && (forall s :: f.role == Index(s) <==>
                  kind == SystemIndex && system == Some(s) && d.parts[|d.parts| - 1] == "README.md")
            && (f.reported == [] <==> f.role.Skipped? || PageInOrder(d.parts, lines))
            && (f.defines <==> kind == Requirement && parsed.Parsed?)
            && (forall id, n: nat :: (id, n) in f.reqs <==> 1 <= n <= |lines| && p.heading(lines[n - 1]) == Some(id))
            && (forall id, n: nat ::
                  (id, n) in f.criteria <==> 1 <= n <= |lines| && p.criterion(lines[n - 1]) == Some(id))
            && (forall id :: id in f.named <==>
                  && kind == SystemDesign && parsed.Parsed?
                  && "requirements" in parsed.metadata && parsed.metadata["requirements"].Items?
                  && id in parsed.metadata["requirements"].items)
  {
    SystemsOfKinds(d.parts);
    GovernedIff(d.parts);
    if Governed(d.parts) {
      LinterAccepts(d.parts, d.Lines());
    }
    forall id, n: nat
      ensures (id, n) in Matched(p.heading, d.Lines()) <==>
              1 <= n <= |d.Lines()| && p.heading(d.Lines()[n - 1]) == Some(id)
      ensures (id, n) in Matched(p.criterion, d.Lines()) <==>
              1 <= n <= |d.Lines()| && p.criterion(d.Lines()[n - 1]) == Some(id)
    {
      CollectedIff(p.heading, d.Lines(), id, n);
      CollectedIff(p.criterion, d.Lines(), id, n);
    }
  }

  lemma SystemsOfKinds(parts: seq<string>)
    ensures ClassifyPath(parts).1.Some? <==> ClassifyPath(parts).0 in {Requirement, SystemDesign, SystemIndex}
    ensures ClassifyPath(parts).0 == SystemIndex ==> parts != []
  {}

  function Reader(p: Patterns): Doc -> Facts {
    d => FactsOf(p, d)
  }

  function Each(read: Doc -> Facts, docs: seq<Doc>): seq<Facts> {
    seq(|docs|, i requires 0 <= i < |docs| => read(docs[i]))
  }

  function Corpus(p: Patterns, docs: seq<Doc>): seq<Facts> {
    Each(Reader(p), docs)
  }

  method ReadDocument(p: Patterns, d: Doc) returns (f: Facts)
    ensures f == FactsOf(p, d)
  {
    var role := RoleOf(d);
    var parsed := ParseFrontmatter(d.text, true);
    var reqs, criteria := CollectRequirementIds(p, d.text);
    f := Facts(role,
               if role.Skipped? then [] else LinterViolations(d.parts, d.Lines()),
               role.Requirements? && parsed.Parsed?,
               reqs, criteria,
               if role.Design? && parsed.Parsed? then NamedRequirements(parsed.metadata) else []);
  }

  // ----- Identifiers

  function AcceptanceParent(id: string): string {
    var tail := if "AC-" <= id then id[3..] else id;
    var k := LastIndex(tail, '.');
    "REQ-" + (if k == -1 then tail else tail[..k])
  }

  /** A criterion `AC-x.n` belongs to requirement `REQ-x`, whatever dots x holds. */
  lemma ParentOfCriterion(name: string, number: string)
    requires '.' !in number
    ensures AcceptanceParent("AC-" + name + "." + number) == "REQ-" + name
  {
    var id := "AC-" + name + "." + number;
    var tail := name + "." + number;
    assert id == "AC-" + tail && id[3..] == tail;
    assert tail[|name|] == '.';
    assert forall i | |name| < i < |tail| :: tail[i] == number[i - |name| - 1];
    assert LastIndex(tail, '.') == |name|;
    assert tail[..|name|] == name;
  }

  // ----- Violations

  datatype Site = Site(doc: nat, line: nat)

  datatype Violation =
    | Document(doc: nat, violation: PageViolation)
    | NoRequirement(doc: nat)
    | NoCriterion(doc: nat, id: string, line: nat)
    | Orphan(doc: nat, id: string, line: nat)
    | NoIndex(system: string)
    | Duplicate(acceptance: bool, id: string, site: Site)
    | UnknownReference(doc: nat, id: string)
    | ForeignReference(doc: nat, id: string)

  // ----- One document

  ghost function Ids(defs: seq<(string, nat)>): set<string> {
    set d | d in defs :: d.0
  }

  ghost function Parents(criteria: seq<(string, nat)>): set<string> {
    set c | c in criteria :: AcceptanceParent(c.0)
  }

  ghost function Uncovered(reqs: seq<(string, nat)>, parents: set<string>, i: nat): seq<Violation> {
    if reqs == [] then []
    else
      var (id, line) := reqs[|reqs| - 1];
      Uncovered(reqs[..|reqs| - 1], parents, i) + (if id in parents then [] else [NoCriterion(i, id, line)])
  }

  ghost function Orphans(criteria: seq<(string, nat)>, ids: set<string>, i: nat): seq<Violation> {
    Parentless(AcceptanceParent, criteria, ids, i)
  }

  ghost function Parentless(
    parent: string -> string, criteria: seq<(string, nat)>, ids: set<string>, i: nat): seq<Violation>
  {
    if criteria == [] then []
    else
      var (id, line) := criteria[|criteria| - 1];
      Parentless(parent, criteria[..|criteria| - 1], ids, i) + (if parent(id) in ids then [] else [Orphan(i, id, line)])
  }

  function Tagged(i: nat, vs: seq<PageViolation>): seq<Violation> {
    seq(|vs|, k requires 0 <= k < |vs| => Document(i, vs[k]))
  }

  ghost function RequirementViolations(f: Facts, i: nat): seq<Violation> {
    (if f.reqs == [] then [NoRequirement(i)] else [])
    + Uncovered(f.reqs, Parents(f.criteria), i)
    + Orphans(f.criteria, Ids(f.reqs), i)
  }

  ghost function DocViolations(f: Facts, i: nat): seq<Violation> {
    Tagged(i, f.reported) + (if f.defines then RequirementViolations(f, i) else [])
  }

  lemma {:induction false} UncoveredHas(reqs: seq<(string, nat)>, parents: set<string>, i: nat, v: Violation)
    ensures v in Uncovered(reqs, parents, i) <==>
            v.NoCriterion? && v.doc == i && (v.id, v.line) in reqs && v.id !in parents
  {
    if reqs != [] {
      var n := |reqs| - 1;
      UncoveredHas(reqs[..n], parents, i, v);
      InLast(reqs);
      if v.NoCriterion? {
        assert (v.id, v.line) == reqs[n] <==> v.id == reqs[n].0 && v.line == reqs[n].1;
      }
    }
  }

  lemma {:induction false} ParentlessHas(
    parent: string -> string, criteria: seq<(string, nat)>, ids: set<string>, i: nat, v: Violation)
    ensures v in Parentless(parent, criteria, ids, i) <==>
            v.Orphan? && v.doc == i && (v.id, v.line) in criteria && parent(v.id) !in ids
  {
    if criteria != [] {
      var n := |criteria| - 1;
      ParentlessHas(parent, criteria[..n], ids, i, v);
      InLast(criteria);
      if v.Orphan? {
        assert (v.id, v.line) == criteria[n] <==> v.id == criteria[n].0 && v.line == criteria[n].1;
      }
    }
  }

  lemma OrphansHave(criteria: seq<(string, nat)>, ids: set<string>, i: nat, v: Violation)
    ensures v in Orphans(criteria, ids, i) <==>
            v.Orphan? && v.doc == i && (v.id, v.line) in criteria && AcceptanceParent(v.id) !in ids
  {
    ParentlessHas(AcceptanceParent, criteria, ids, i, v);
  }

  /** The violations of one document, spelled out. */
  lemma DocViolationsAre(f: Facts, i: nat, v: Violation)
    ensures v in DocViolations(f, i) <==>
            match v
            case Document(doc, fault) => doc == i && fault in f.reported
            case NoRequirement(doc) => doc == i && f.defines && f.reqs == []
            case NoCriterion(doc, id, line) =>
              doc == i && f.defines && (id, line) in f.reqs && forall c | c in f.criteria :: AcceptanceParent(c.0) != id
            case Orphan(doc, id, line) =>
              doc == i && f.defines && (id, line) in f.criteria && forall r | r in f.reqs :: r.0 != AcceptanceParent(id)
            case _ => false
  {
    TaggedHave(i, f.reported, v);
    UncoveredHas(f.reqs, Parents(f.criteria), i, v);
    OrphansHave(f.criteria, Ids(f.reqs), i, v);
  }

  lemma TaggedHave(i: nat, faults: seq<PageViolation>, v: Violation)
    ensures v in Tagged(i, faults) <==> v.Document? && v.doc == i && v.violation in faults
  {
    if v.Document? && v.doc == i && v.violation in faults {
      var k :| 0 <= k < |faults| && faults[k] == v.violation;
      assert Tagged(i, faults)[k] == v;
    }
  }

  method CheckCovered(reqs: seq<(string, nat)>, parents: set<string>, i: nat) returns (vs: seq<Violation>)
    ensures vs == Uncovered(reqs, parents, i)
  {
    vs := [];
    for k := 0 to |reqs|
      invariant vs == Uncovered(reqs[..k], parents, i)
    {
      assert reqs[..k + 1][..k] == reqs[..k];
      if reqs[k].0 !in parents {
        vs := vs + [NoCriterion(i, reqs[k].0, reqs[k].1)];
      }
    }
    assert reqs[..|reqs|] == reqs;
  }

  method CheckOrphans(criteria: seq<(string, nat)>, ids: set<string>, i: nat) returns (vs: seq<Violation>)
    ensures vs == Orphans(criteria, ids, i)
  {
    vs := [];
    for k := 0 to |criteria|
      invariant vs == Orphans(criteria[..k], ids, i)
    {
      assert criteria[..k + 1][..k] == criteria[..k];
      if AcceptanceParent(criteria[k].0) !in ids {
        vs := vs + [Orphan(i, criteria[k].0, criteria[k].1)];
      }
    }
    assert criteria[..|criteria|] == criteria;
  }

  method CheckDocument(f: Facts, i: nat) returns (vs: seq<Violation>)
    ensures vs == DocViolations(f, i)
  {
    vs := Tagged(i, f.reported);
    if f.defines {
      var none := if f.reqs == [] then [NoRequirement(i)] else [];
      var uncovered := CheckCovered(f.reqs, set c | c in f.criteria :: AcceptanceParent(c.0), i);
      var orphans := CheckOrphans(f.criteria, set r | r in f.reqs :: r.0, i);
      vs := vs + (none + uncovered + orphans);
    }
  }

  // ----- Definitions across documents

  type Definitions = map<string, seq<Site>>

  function Lookup(defs: Definitions, id: string): seq<Site> {
    if id in defs then defs[id] else []
  }

  ghost function SitesIn(ids: seq<(string, nat)>, i: nat, id: string): seq<Site> {
    if ids == [] then []
    else
      var n := |ids| - 1;
      SitesIn(ids[..n], i, id) + (if ids[n].0 == id then [Site(i, ids[n].1)] else [])
  }

  /** The identifiers a document defines, of one of the two sorts. */
  function Defined(f: Facts, acceptance: bool): seq<(string, nat)> {
    if !f.defines then [] else if acceptance then f.criteria else f.reqs
  }

  ghost function Sites(facts: seq<Facts>, acceptance: bool, id: string): seq<Site> {
    if facts == [] then []
    else
      var n := |facts| - 1;
      Sites(facts[..n], acceptance, id) + SitesIn(Defined(facts[n], acceptance), n, id)
  }

  ghost predicate Records(defs: Definitions, facts: seq<Facts>, acceptance: bool) {
    && (forall id :: Lookup(defs, id) == Sites(facts, acceptance, id))
    && (forall id | id in defs :: defs[id] != [])
  }

  function Append(defs: Definitions, id: string, site: Site): Definitions {
    defs[id := Lookup(defs, id) + [site]]
  }

  lemma AppendNext(defs: Definitions, out: Definitions, ids: seq<(string, nat)>, k: nat, i: nat, x: string)
    requires k < |ids| && Lookup(out, x) == Lookup(defs, x) + SitesIn(ids[..k], i, x)
    ensures Lookup(Append(out, ids[k].0, Site(i, ids[k].1)), x) == Lookup(defs, x) + SitesIn(ids[..k + 1], i, x)
  {
    assert ids[..k + 1][..k] == ids[..k];
    assert Lookup(defs, x) + SitesIn(ids[..k], i, x) + [Site(i, ids[k].1)]
        == Lookup(defs, x) + (SitesIn(ids[..k], i, x) + [Site(i, ids[k].1)]);
  }

  method AddDefinitions(defs: Definitions, ids: seq<(string, nat)>, i: nat) returns (out: Definitions)
    requires forall id | id in defs :: defs[id] != []
    ensures forall id :: Lookup(out, id) == Lookup(defs, id) + SitesIn(ids, i, id)
    ensures forall id | id in out :: out[id] != []
  {
    out := defs;
    for k := 0 to |ids|
      invariant forall id | id in out :: out[id] != []
      invariant forall id :: Lookup(out, id) == Lookup(defs, id) + SitesIn(ids[..k], i, id)
    {
      forall x ensures Lookup(Append(out, ids[k].0, Site(i, ids[k].1)), x) == Lookup(defs, x)
          + SitesIn(ids[..k + 1], i, x) {
        AppendNext(defs, out, ids, k, i, x);
      }
      out := Append(out, ids[k].0, Site(i, ids[k].1));
    }
    assert ids[..|ids|] == ids;
  }

  /** Every location of an identifier after its first is reported. */
  method CheckDuplicateIds(acceptance: bool, defs: Definitions) returns (vs: seq<Violation>)
    ensures forall v :: v in vs <==>
              v.Duplicate? && v.acceptance == acceptance && v.id in defs && |defs[v.id]| > 1
                  && v.site in defs[v.id][1..]
  {
    vs := [];
    var todo := defs.Keys;
    while todo != {}
      invariant todo <= defs.Keys
      invariant forall v :: v in vs <==>
                  && v.Duplicate? && v.acceptance == acceptance && v.id in defs.Keys - todo
                  && |defs[v.id]| > 1 && v.site in defs[v.id][1..]
    {
      var id :| id in todo;
      todo := todo - {id};
      var locations := defs[id];
      if |locations| < 2 {
        continue;
      }
      for k := 1 to |locations|
        invariant forall v :: v in vs <==>
                    && v.Duplicate? && v.acceptance == acceptance
                    && ((v.id in defs.Keys - todo - {id} && |defs[v.id]| > 1 && v.site in defs[v.id][1..])
                        || (v.id == id && v.site in locations[1..k]))
      {
        assert locations[1..k + 1] == locations[1..k] + [locations[k]];
        vs := vs + [Duplicate(acceptance, id, locations[k])];
      }
      assert locations[1..|locations|] == locations[1..];
    }
  }

  // ----- References

  datatype Reference = Reference(id: string, doc: nat, system: string)

  function Named(f: Facts, i: nat): seq<Reference> {
    if f.role.Design? then
      seq(|f.named|, k requires 0 <= k < |f.named| && f.role.Design? => Reference(f.named[k], i, f.role.system))
    else []
  }

  ghost function References(facts: seq<Facts>): seq<Reference> {
    if facts == [] then []
    else References(facts[..|facts| - 1]) + Named(facts[|facts| - 1], |facts| - 1)
  }

  /** The first site belongs to a document of `system`. */
  ghost predicate OwnedBy(facts: seq<Facts>, sites: seq<Site>, system: string) {
    && sites != [] && sites[0].doc < |facts|
    && !facts[sites[0].doc].role.Skipped? && facts[sites[0].doc].role.system == system
  }

  /** What is wrong with one reference, given every identifier's sites. */
  ghost predicate Unresolvable(facts: seq<Facts>, sites: seq<Site>, r: Reference, v: Violation) {
    || (v == UnknownReference(r.doc, r.id) && sites == [])
    || (v == ForeignReference(r.doc, r.id) && sites != [] && !OwnedBy(facts, sites, r.system))
  }

  method CheckReferences(facts: seq<Facts>, defs: Definitions, refs: seq<Reference>) returns (vs: seq<Violation>)
    requires forall id | id in defs ::
               defs[id] != [] && forall s | s in defs[id] :: s.doc < |facts| && !facts[s.doc].role.Skipped?
    ensures forall v :: v in vs <==> exists r | r in refs :: Unresolvable(facts, Lookup(defs, r.id), r, v)
  {
    vs := [];
    for k := 0 to |refs|
      invariant forall v :: v in vs <==> exists r | r in refs[..k] :: Unresolvable(facts, Lookup(defs, r.id), r, v)
    {
      var r := refs[k];
      assert refs[..k + 1] == refs[..k] + [r] && r in refs[..k + 1];
      if r.id !in defs {
        vs := vs + [UnknownReference(r.doc, r.id)];
        continue;
      }
      assert defs[r.id][0] in defs[r.id];
      if facts[defs[r.id][0].doc].role.system != r.system {
        vs := vs + [ForeignReference(r.doc, r.id)];
      }
    }
    assert refs[..|refs|] == refs;
  }

  // ----- The whole run

  ghost predicate Silent(facts: seq<Facts>) {
    forall i: nat | i < |facts| :: DocViolations(facts[i], i) == []
  }

  ghost function Gather(found: (Facts, nat) -> seq<Violation>, facts: seq<Facts>): seq<Violation> {
    if facts == [] then []
    else
      var n := |facts| - 1;
      Gather(found, facts[..n]) + found(facts[n], n)
  }

  /** The violations of all documents, one after another. */
  ghost function DocReports(facts: seq<Facts>): seq<Violation> {
    Gather(DocViolations, facts)
  }

  lemma GatherNext(found: (Facts, nat) -> seq<Violation>, facts: seq<Facts>, f: Facts)
    ensures Gather(found, facts + [f]) == Gather(found, facts) + found(f, |facts|)
  {
    assert (facts + [f])[..|facts|] == facts;
  }

  lemma {:induction false} GatherHas(found: (Facts, nat) -> seq<Violation>, facts: seq<Facts>, v: Violation)
    ensures v in Gather(found, facts) <==> exists i: nat | i < |facts| :: v in found(facts[i], i)
  {
    if facts != [] {
      var n := |facts| - 1;
      GatherHas(found, facts[..n], v);
      assert forall i: nat | i < n :: facts[..n][i] == facts[i];
    }
  }

  ghost function Systems(facts: seq<Facts>): set<string> {
    set f | f in facts && (f.role.Requirements? || f.role.Design?) :: f.role.system
  }

  ghost function Indexed(facts: seq<Facts>): set<string> {
    set f | f in facts && f.role.Index? :: f.role.system
  }

  ghost predicate Unique(facts: seq<Facts>, acceptance: bool) {
    forall id :: |Sites(facts, acceptance, id)| <= 1
  }

  ghost predicate Resolved(facts: seq<Facts>) {
    forall r | r in References(facts) :: OwnedBy(facts, Sites(facts, false, r.id), r.system)
  }

  ghost predicate WellRoled(facts: seq<Facts>) {
    forall f | f in facts && f.defines :: f.role.Requirements?
  }

  /** The state of the first pass after `facts`. */
  datatype Pass = Pass(
    violations: seq<Violation>, requirements: Definitions, acceptance: Definitions,
    references: seq<Reference>, systems: set<string>, indexes: set<string>)

  ghost predicate Passed(p: Pass, facts: seq<Facts>) {
    && p.violations == DocReports(facts)
    && Records(p.requirements, facts, false)
    && Records(p.acceptance, facts, true)
    && p.references == References(facts)
    && p.systems == Systems(facts)
    && p.indexes == Indexed(facts)
  }

  method Visit(p: Pass, ghost facts: seq<Facts>, f: Facts, i: nat) returns (q: Pass)
    requires Passed(p, facts) && i == |facts|
    ensures Passed(q, facts + [f])
  {
    var found := CheckDocument(f, i);
    var requirements := AddDefinitions(p.requirements, Defined(f, false), i);
    var acceptance := AddDefinitions(p.acceptance, Defined(f, true), i);
    q := Pass(
      p.violations + found, requirements, acceptance, p.references + Named(f, i),
      if f.role.Requirements? || f.role.Design? then p.systems + {f.role.system} else p.systems,
      if f.role.Index? then p.indexes + {f.role.system} else p.indexes);
    GatherNext(DocViolations, facts, f);
    SystemsNext(facts, f);
    RecordsNext(p.requirements, requirements, facts, f, false);
    RecordsNext(p.acceptance, acceptance, facts, f, true);
    ReferencesNext(facts, f);
  }

  lemma RecordsNext(before: Definitions, after: Definitions, facts: seq<Facts>, f: Facts, acceptance: bool)
    requires Records(before, facts, acceptance)
    requires forall id :: Lookup(after, id) == Lookup(before, id) + SitesIn(Defined(f, acceptance), |facts|, id)
    requires forall id | id in after :: after[id] != []
    ensures Records(after, facts + [f], acceptance)
  {
    assert (facts + [f])[..|facts|] == facts;
  }

  lemma ReferencesNext(facts: seq<Facts>, f: Facts)
    ensures References(facts + [f]) == References(facts) + Named(f, |facts|)
  {
    assert (facts + [f])[..|facts|] == facts;
  }

  lemma SystemsNext(facts: seq<Facts>, f: Facts)
    ensures Systems(facts + [f]) == Systems(facts)
            + (if f.role.Requirements? || f.role.Design? then {f.role.system} else {})
    ensures Indexed(facts + [f]) == Indexed(facts) + (if f.role.Index? then {f.role.system} else {})
  {}

  lemma {:induction false} SitesAre(facts: seq<Facts>, acceptance: bool, id: string, s: Site)
    ensures s in Sites(facts, acceptance, id) <==>
            s.doc < |facts| && (id, s.line) in Defined(facts[s.doc], acceptance)
  {
    if facts != [] {
      var n := |facts| - 1;
      SitesAre(facts[..n], acceptance, id, s);
      SitesInAre(Defined(facts[n], acceptance), n, id, s);
    }
  }

  lemma {:induction false} SitesInAre(ids: seq<(string, nat)>, i: nat, id: string, s: Site)
    ensures s in SitesIn(ids, i, id) <==> s.doc == i && (id, s.line) in ids
  {
    if ids != [] {
      var n := |ids| - 1;
      SitesInAre(ids[..n], i, id, s);
      assert ids == ids[..n] + [ids[n]];
    }
  }

  /** What the linter's passes establish together. */
  ghost predicate Checked(facts: seq<Facts>) {
    && Silent(facts)
    && Systems(facts) <= Indexed(facts)
    && Unique(facts, false) && Unique(facts, true)
    && Resolved(facts)
  }

  /** Exactly the violations of a corpus: those of each document, systems without a page, every place
      but the first that defines an identifier, and references that nothing or another system defines. */
  ghost predicate Reported(facts: seq<Facts>, v: Violation) {
    match v
    case NoIndex(system) => system in Systems(facts) && system !in Indexed(facts)
    case Duplicate(acceptance, id, site) =>
      |Sites(facts, acceptance, id)| > 1 && site in Sites(facts, acceptance, id)[1..]
    case UnknownReference(_, id) =>
      exists r | r in References(facts) :: Unresolvable(facts, Sites(facts, false, r.id), r, v)
    case ForeignReference(_, id) =>
      exists r | r in References(facts) :: Unresolvable(facts, Sites(facts, false, r.id), r, v)
    case _ => v in DocReports(facts)
  }

  method FirstPass(facts: seq<Facts>) returns (p: Pass)
    ensures Passed(p, facts)
  {
    p := Pass([], map[], map[], [], {}, {});
    for k := 0 to |facts|
      invariant Passed(p, facts[..k])
    {
      assert facts[..k + 1] == facts[..k] + [facts[k]];
      p := Visit(p, facts[..k], facts[k], k);
    }
    assert facts[..|facts|] == facts;
  }

  method CheckIndexes(unindexed: set<string>) returns (missing: seq<Violation>)
    ensures forall v :: v in missing <==> v.NoIndex? && v.system in unindexed
  {
    missing := [];
    var todo := unindexed;
    while todo != {}
      invariant todo <= unindexed
      invariant forall v :: v in missing <==> v.NoIndex? && v.system in unindexed - todo
    {
      var system :| system in todo;
      todo := todo - {system};
      missing := missing + [NoIndex(system)];
    }
  }

  lemma DuplicatesAre(defs: Definitions, facts: seq<Facts>, acceptance: bool, vs: seq<Violation>, v: Violation)
    requires Records(defs, facts, acceptance)
    requires v in vs <==>
             v.Duplicate? && v.acceptance == acceptance && v.id in defs && |defs[v.id]| > 1
             && v.site in defs[v.id][1..]
    ensures v in vs <==> v.Duplicate? && v.acceptance == acceptance && Reported(facts, v)
  {
    if v.Duplicate? {
      assert Lookup(defs, v.id) == Sites(facts, acceptance, v.id);
    }
  }

  lemma UnresolvedAre(defs: Definitions, facts: seq<Facts>, refs: seq<Reference>, vs: seq<Violation>, v: Violation)
    requires Records(defs, facts, false) && refs == References(facts)
    requires v in vs <==> exists r | r in refs :: Unresolvable(facts, Lookup(defs, r.id), r, v)
    ensures v in vs <==> (v.UnknownReference? || v.ForeignReference?) && Reported(facts, v)
  {
    assert forall r | r in refs :: Lookup(defs, r.id) == Sites(facts, false, r.id);
  }

  lemma DocReportKinds(facts: seq<Facts>, v: Violation)
    ensures v in DocReports(facts) ==>
              !v.NoIndex? && !v.Duplicate? && !v.UnknownReference? && !v.ForeignReference?
  {
    GatherHas(DocViolations, facts, v);
    if v in DocReports(facts) {
      var i: nat :| i < |facts| && v in DocViolations(facts[i], i);
      DocViolationsAre(facts[i], i, v);
    }
  }

  /** The linter's passes report exactly the corpus's violations. */
  method LintFacts(facts: seq<Facts>) returns (vs: seq<Violation>)
    requires WellRoled(facts)
    ensures forall v :: v in vs <==> Reported(facts, v)
  {
    var p := FirstPass(facts);
    var missing := CheckIndexes(p.systems - p.indexes);
    var twice := CheckDuplicateIds(false, p.requirements);
    var twiceAccepted := CheckDuplicateIds(true, p.acceptance);
    SitesHaveOwners(facts, p.requirements);
    var unresolved := CheckReferences(facts, p.requirements, p.references);
    vs := p.violations + missing + twice + twiceAccepted + unresolved;
    forall v ensures v in vs <==> Reported(facts, v) {
      DocReportKinds(facts, v);
      DuplicatesAre(p.requirements, facts, false, twice, v);
      DuplicatesAre(p.acceptance, facts, true, twiceAccepted, v);
      UnresolvedAre(p.requirements, facts, p.references, unresolved, v);
    }
  }

  /** A corpus has no violation exactly when all checks hold. */
  lemma NothingReportedIff(facts: seq<Facts>)
    ensures (forall v :: !Reported(facts, v)) <==> Checked(facts)
  {
    if forall v :: !Reported(facts, v) {
      NothingReportedMeans(facts);
    }
    if Checked(facts) {
      forall v ensures !Reported(facts, v) {
        CheckedMeans(facts, v);
      }
    }
  }

  lemma NothingReportedMeans(facts: seq<Facts>)
    requires forall v :: !Reported(facts, v)
    ensures Checked(facts)
  {
    forall i: nat | i < |facts| ensures DocViolations(facts[i], i) == [] {
      if DocViolations(facts[i], i) != [] {
        FaultIsReported(facts, i);
      }
    }
    forall s | s in Systems(facts) ensures s in Indexed(facts) {
      assert !Reported(facts, NoIndex(s));
    }
    forall acceptance, id ensures |Sites(facts, acceptance, id)| <= 1 {
      if |Sites(facts, acceptance, id)| > 1 {
        DuplicateIsReported(facts, acceptance, id);
      }
    }
    forall r | r in References(facts) ensures OwnedBy(facts, Sites(facts, false, r.id), r.system) {
      ReferenceResolves(facts, r);
    }
  }

  lemma FaultIsReported(facts: seq<Facts>, i: nat)
    requires i < |facts| && DocViolations(facts[i], i) != []
    ensures exists v :: Reported(facts, v)
  {
    var v := DocViolations(facts[i], i)[0];
    GatherHas(DocViolations, facts, v);
    DocReportKinds(facts, v);
    assert Reported(facts, v);
  }

  lemma DuplicateIsReported(facts: seq<Facts>, acceptance: bool, id: string)
    requires |Sites(facts, acceptance, id)| > 1
    ensures exists v :: Reported(facts, v)
  {
    var site := Sites(facts, acceptance, id)[1..][0];
    assert site in Sites(facts, acceptance, id)[1..];
    assert Reported(facts, Duplicate(acceptance, id, site));
  }

  lemma ReferenceResolves(facts: seq<Facts>, r: Reference)
    requires forall v :: !Reported(facts, v)
    requires r in References(facts)
    ensures OwnedBy(facts, Sites(facts, false, r.id), r.system)
  {
    var sites := Sites(facts, false, r.id);
    var unknown, foreign := UnknownReference(r.doc, r.id), ForeignReference(r.doc, r.id);
    assert !Reported(facts, unknown) && !Reported(facts, foreign);
    assert !Unresolvable(facts, sites, r, unknown) && !Unresolvable(facts, sites, r, foreign);
  }

  lemma CheckedMeans(facts: seq<Facts>, v: Violation)
    requires Checked(facts)
    ensures !Reported(facts, v)
  {
    GatherHas(DocViolations, facts, v);
  }

  lemma SitesHaveOwners(facts: seq<Facts>, defs: Definitions)
    requires WellRoled(facts) && Records(defs, facts, false)
    ensures forall id | id in defs ::
              defs[id] != [] && forall s | s in defs[id] :: s.doc < |facts| && !facts[s.doc].role.Skipped?
  {
    forall id, s | id in defs && s in defs[id] ensures s.doc < |facts| && !facts[s.doc].role.Skipped? {
      assert defs[id] == Lookup(defs, id) == Sites(facts, false, id);
      SitesAre(facts, false, id, s);
      assert facts[s.doc] in facts;
    }
  }

  // ----- What a clean corpus is

  /** Position `p` of document `i` defines an identifier. */
  ghost predicate DefinesAt(facts: seq<Facts>, acceptance: bool, i: int, p: int) {
    0 <= i < |facts| && 0 <= p < |Defined(facts[i], acceptance)|
  }

  /** Each identifier of one sort is defined at exactly one place of the corpus. */
  ghost predicate DefinedOnce(facts: seq<Facts>, acceptance: bool) {
    forall i, p, j, q | DefinesAt(facts, acceptance, i, p) && DefinesAt(facts, acceptance, j, q) ::
      Defined(facts[i], acceptance)[p].0 == Defined(facts[j], acceptance)[q].0 ==> i == j && p == q
  }

  /** Requirements and criteria of one document cover each other. */
  ghost predicate Covered(f: Facts) {
    && f.reqs != []
    && (forall r | r in f.reqs :: exists c | c in f.criteria :: AcceptanceParent(c.0) == r.0)
    && (forall c | c in f.criteria :: exists r | r in f.reqs :: AcceptanceParent(c.0) == r.0)
  }

  /** Document `j` of `system` defines requirement `id`. */
  ghost predicate OwnsRequirement(facts: seq<Facts>, j: nat, system: string, id: string) {
    && j < |facts| && facts[j].defines && facts[j].role == Requirements(system)
    && exists r | r in facts[j].reqs :: r.0 == id
  }

  ghost predicate Integral(facts: seq<Facts>) {
    && (forall f | f in facts :: f.reported == [])
    && (forall f | f in facts && f.defines :: Covered(f))
    && DefinedOnce(facts, false) && DefinedOnce(facts, true)
    && (forall f, id | f in facts && f.role.Design? && id in f.named :: exists j: nat ::
        OwnsRequirement(facts, j, f.role.system, id))
    && (forall f | f in facts && (f.role.Requirements? || f.role.Design?) ::
          exists g | g in facts :: g.role == Index(f.role.system))
  }

  lemma InLast(s: seq<(string, nat)>)
    requires s != []
    ensures forall x :: x in s <==> x in s[..|s| - 1] || x == s[|s| - 1]
  {
    assert s == s[..|s| - 1] + [s[|s| - 1]];
  }

  lemma {:induction false} UncoveredIff(reqs: seq<(string, nat)>, parents: set<string>, i: nat)
    ensures Uncovered(reqs, parents, i) == [] <==> forall r | r in reqs :: r.0 in parents
  {
    if reqs != [] {
      UncoveredIff(reqs[..|reqs| - 1], parents, i);
      InLast(reqs);
    }
  }

  lemma {:induction false} ParentlessIff(
    parent: string -> string, criteria: seq<(string, nat)>, ids: set<string>, i: nat)
    ensures Parentless(parent, criteria, ids, i) == [] <==> forall c | c in criteria :: parent(c.0) in ids
  {
    if criteria != [] {
      ParentlessIff(parent, criteria[..|criteria| - 1], ids, i);
      InLast(criteria);
    }
  }

  lemma OrphansIff(criteria: seq<(string, nat)>, ids: set<string>, i: nat)
    ensures Orphans(criteria, ids, i) == [] <==> forall c | c in criteria :: AcceptanceParent(c.0) in ids
  {
    ParentlessIff(AcceptanceParent, criteria, ids, i);
  }

  lemma SilentDocument(f: Facts, i: nat)
    ensures DocViolations(f, i) == [] <==> f.reported == [] && (f.defines ==> Covered(f))
  {
    UncoveredIff(f.reqs, Parents(f.criteria), i);
    OrphansIff(f.criteria, Ids(f.reqs), i);
    assert Tagged(i, f.reported) == [] <==> f.reported == [];
  }

  /** Occurrences of `id` among the pairs, as positions. */
  lemma {:induction false} SitesInOnce(ids: seq<(string, nat)>, i: nat, id: string)
    ensures |SitesIn(ids, i, id)| > 1 <==> exists p, q | 0 <= p < q < |ids| :: ids[p].0 == id && ids[q].0 == id
    ensures |SitesIn(ids, i, id)| > 0 <==> exists p | 0 <= p < |ids| :: ids[p].0 == id
  {
    if ids != [] {
      var n := |ids| - 1;
      SitesInOnce(ids[..n], i, id);
      assert forall p | 0 <= p < n :: ids[..n][p] == ids[p];
    }
  }

  ghost predicate Here(facts: seq<Facts>, acceptance: bool, i: int, p: int, id: string) {
    DefinesAt(facts, acceptance, i, p) && Defined(facts[i], acceptance)[p].0 == id
  }

  lemma {:induction false} SitesNonempty(facts: seq<Facts>, acceptance: bool, id: string)
    ensures Sites(facts, acceptance, id) != [] <==> exists i, p :: Here(facts, acceptance, i, p, id)
  {
    if facts != [] {
      var n := |facts| - 1;
      var rest := facts[..n];
      SitesNonempty(rest, acceptance, id);
      SitesInOnce(Defined(facts[n], acceptance), n, id);
      if i, p :| Here(rest, acceptance, i, p, id) {
        HereInPrefix(facts, acceptance, i, p, id);
      }
      if p :| 0 <= p < |Defined(facts[n], acceptance)| && Defined(facts[n], acceptance)[p].0 == id {
        HereInPrefix(facts, acceptance, n, p, id);
      }
      if i, p :| Here(facts, acceptance, i, p, id) {
        HereInPrefix(facts, acceptance, i, p, id);
      }
    }
  }

  lemma HereInPrefix(facts: seq<Facts>, acceptance: bool, i: int, p: int, id: string)
    requires facts != []
    ensures var n := |facts| - 1;
            var last := Defined(facts[n], acceptance);
            Here(facts, acceptance, i, p, id) <==>
            Here(facts[..n], acceptance, i, p, id) || (i == n && 0 <= p < |last| && last[p].0 == id)
  {}

  lemma {:induction false} SeveralSites(facts: seq<Facts>, acceptance: bool, id: string)
    returns (i: int, p: int, j: int, q: int)
    requires |Sites(facts, acceptance, id)| > 1
    ensures Here(facts, acceptance, i, p, id) && Here(facts, acceptance, j, q, id) && (i, p) != (j, q)
  {
    var n := |facts| - 1;
    var rest := facts[..n];
    var last := Defined(facts[n], acceptance);
    SitesInOnce(last, n, id);
    if |Sites(rest, acceptance, id)| > 1 {
      i, p, j, q := SeveralSites(rest, acceptance, id);
    } else if |SitesIn(last, n, id)| > 1 {
      p, q :| 0 <= p < q < |last| && last[p].0 == id && last[q].0 == id;
      i, j := n, n;
    } else {
      SitesNonempty(rest, acceptance, id);
      i, p :| Here(rest, acceptance, i, p, id);
      j := n;
      q :| 0 <= q < |last| && last[q].0 == id;
    }
  }

  lemma InOneDocument(ids: seq<(string, nat)>, n: nat, id: string, p: int, q: int)
    requires 0 <= p <= q < |ids| && ids[p].0 == id && ids[q].0 == id
    ensures |SitesIn(ids, n, id)| > (if p < q then 1 else 0)
  {
    SitesInOnce(ids, n, id);
  }

  lemma InEarlierDocument(facts: seq<Facts>, acceptance: bool, id: string, i: int, p: int)
    requires Here(facts, acceptance, i, p, id)
    ensures |Sites(facts, acceptance, id)| > 0
  {
    SitesNonempty(facts, acceptance, id);
  }

  lemma {:induction false} TwoPlaces(facts: seq<Facts>, acceptance: bool, id: string, i: int, p: int, j: int, q: int)
    requires Here(facts, acceptance, i, p, id) && Here(facts, acceptance, j, q, id)
    requires i < j || (i == j && p < q)
    ensures |Sites(facts, acceptance, id)| > 1
  {
    var n := |facts| - 1;
    var rest := facts[..n];
    var last := Defined(facts[n], acceptance);
    HereInPrefix(facts, acceptance, i, p, id);
    HereInPrefix(facts, acceptance, j, q, id);
    if j < n {
      TwoPlaces(rest, acceptance, id, i, p, j, q);
    } else if i < n {
      InEarlierDocument(rest, acceptance, id, i, p);
      InOneDocument(last, n, id, q, q);
    } else {
      InOneDocument(last, n, id, p, q);
    }
  }

  lemma UniqueIffDefinedOnce(facts: seq<Facts>, acceptance: bool)
    ensures Unique(facts, acceptance) <==> DefinedOnce(facts, acceptance)
  {
    if !Unique(facts, acceptance) {
      var id :| |Sites(facts, acceptance, id)| > 1;
      var i, p, j, q := SeveralSites(facts, acceptance, id);
      assert DefinesAt(facts, acceptance, i, p) && DefinesAt(facts, acceptance, j, q);
    }
    if !DefinedOnce(facts, acceptance) {
      var i, p, j, q :|
        && DefinesAt(facts, acceptance, i, p) && DefinesAt(facts, acceptance, j, q)
        && Defined(facts[i], acceptance)[p].0 == Defined(facts[j], acceptance)[q].0 && !(i == j && p == q);
      var id := Defined(facts[i], acceptance)[p].0;
      assert Here(facts, acceptance, i, p, id) && Here(facts, acceptance, j, q, id);
      if i < j || (i == j && p < q) {
        TwoPlaces(facts, acceptance, id, i, p, j, q);
      } else {
        TwoPlaces(facts, acceptance, id, j, q, i, p);
      }
      assert |Sites(facts, acceptance, id)| > 1;
    }
  }

  lemma {:induction false} ReferencesAre(facts: seq<Facts>, r: Reference)
    ensures r in References(facts) <==>
            && r.doc < |facts| && facts[r.doc].role == Design(r.system) && r.id in facts[r.doc].named
  {
    if facts != [] {
      var n := |facts| - 1;
      ReferencesAre(facts[..n], r);
      var named := Named(facts[n], n);
      if r.doc == n && facts[n].role == Design(r.system) && r.id in facts[n].named {
        var k :| 0 <= k < |facts[n].named| && facts[n].named[k] == r.id;
        assert named[k] == r;
      }
    }
  }

  lemma OwnedIff(facts: seq<Facts>, system: string, id: string)
    requires WellRoled(facts) && Unique(facts, false)
    ensures OwnedBy(facts, Sites(facts, false, id), system) <==> exists j: nat :: OwnsRequirement(facts, j, system, id)
  {
    var sites := Sites(facts, false, id);
    if sites != [] && OwnedBy(facts, sites, system) {
      SiteOwns(facts, sites[0], system, id);
    }
    if j: nat :| OwnsRequirement(facts, j, system, id) {
      OwnerIsSite(facts, j, system, id);
    }
  }

  lemma SiteOwns(facts: seq<Facts>, s: Site, system: string, id: string)
    requires WellRoled(facts) && s in Sites(facts, false, id) && OwnedBy(facts, [s], system)
    ensures OwnsRequirement(facts, s.doc, system, id)
  {
    SitesAre(facts, false, id, s);
    assert facts[s.doc] in facts && (id, s.line) in facts[s.doc].reqs;
  }

  lemma OwnerIsSite(facts: seq<Facts>, j: nat, system: string, id: string)
    requires WellRoled(facts) && Unique(facts, false) && OwnsRequirement(facts, j, system, id)
    ensures OwnedBy(facts, Sites(facts, false, id), system)
  {
    var sites := Sites(facts, false, id);
    var r :| r in facts[j].reqs && r.0 == id;
    SitesAre(facts, false, id, Site(j, r.1));
    OnlySite(sites, Site(j, r.1));
  }

  lemma OnlySite(sites: seq<Site>, s: Site)
    requires s in sites && |sites| <= 1
    ensures sites[0] == s
  {}

  lemma ResolvedIff(facts: seq<Facts>)
    requires WellRoled(facts) && Unique(facts, false)
    ensures Resolved(facts) <==>
            forall f, id | f in facts && f.role.Design? && id in f.named ::
              exists j: nat :: OwnsRequirement(facts, j, f.role.system, id)
  {
    if Resolved(facts) {
      forall f, id | f in facts && f.role.Design? && id in f.named
        ensures exists j: nat :: OwnsRequirement(facts, j, f.role.system, id)
      {
        var i :| 0 <= i < |facts| && facts[i] == f;
        var r := Reference(id, i, f.role.system);
        ReferencesAre(facts, r);
        OwnedIff(facts, r.system, id);
      }
    } else {
      var r :| r in References(facts) && !OwnedBy(facts, Sites(facts, false, r.id), r.system);
      ReferencesAre(facts, r);
      OwnedIff(facts, r.system, r.id);
      assert facts[r.doc] in facts;
    }
  }

  lemma IndexedIff(facts: seq<Facts>)
    ensures Systems(facts) <= Indexed(facts) <==>
            forall f | f in facts && (f.role.Requirements? || f.role.Design?) ::
              exists g | g in facts :: g.role == Index(f.role.system)
  {
    if Systems(facts) <= Indexed(facts) {
      forall f | f in facts && (f.role.Requirements? || f.role.Design?)
        ensures exists g | g in facts :: g.role == Index(f.role.system)
      {
        assert f.role.system in Systems(facts);
        assert f.role.system in Indexed(facts);
      }
    } else {
      var x :| x in Systems(facts) && x !in Indexed(facts);
      assert forall g | g in facts :: g.role != Index(x);
    }
  }

  lemma SilentIff(facts: seq<Facts>)
    ensures Silent(facts) <==>
            (forall f | f in facts :: f.reported == []) && (forall f | f in facts && f.defines :: Covered(f))
  {
    forall i | 0 <= i < |facts|
      ensures DocViolations(facts[i], i) == [] <==> facts[i].reported == [] && (facts[i].defines ==> Covered(facts[i]))
    {
      SilentDocument(facts[i], i);
    }
    assert forall i | 0 <= i < |facts| :: facts[i] in facts;
  }

  method ReadDocuments(p: Patterns, docs: seq<Doc>) returns (facts: seq<Facts>)
    ensures facts == Corpus(p, docs)
  {
    facts := [];
    for k := 0 to |docs|
      invariant facts == Corpus(p, docs[..k])
    {
      var f := ReadDocument(p, docs[k]);
      facts := facts + [f];
      EachNext(Reader(p), docs, k);
    }
    assert docs[..|docs|] == docs;
  }

  lemma EachNext(read: Doc -> Facts, docs: seq<Doc>, k: nat)
    requires k < |docs|
    ensures Each(read, docs[..k + 1]) == Each(read, docs[..k]) + [read(docs[k])]
  {}

  /** The corpus checks report exactly its violations, and nothing exactly when it is integral:
      metadata in order, each REQ and AC identifier defined once, requirements and criteria matched
      within each document, every design reference owned by the design's own system, every system indexed. */
  method LintCorpus(p: Patterns, docs: seq<Doc>) returns (vs: seq<Violation>)
    ensures forall v :: v in vs <==> Reported(Corpus(p, docs), v)
    ensures vs == [] <==> Integral(Corpus(p, docs))
  {
    var facts := ReadDocuments(p, docs);
    assert WellRoled(facts);
    vs := LintFacts(facts);
    NothingReportedIff(facts);
    IntegralIff(facts);
    if vs != [] {
      assert vs[0] in vs;
    }
  }

  /** What the passes check is the integrity of the corpus. */
  lemma IntegralIff(facts: seq<Facts>)
    requires WellRoled(facts)
    ensures Integral(facts) <==> Checked(facts)
  {
    SilentIff(facts);
    IndexedIff(facts);
    UniqueIffDefinedOnce(facts, false);
    UniqueIffDefinedOnce(facts, true);
    if Unique(facts, false) {
      ResolvedIff(facts);
    }
  }
}
