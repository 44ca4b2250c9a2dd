/** The specification linter as a whole: migrations that systems declare, the corpus checks and the
    size checks of one run. */
module SpecLinter {
  import opened Wrappers
  import opened PythonText
  import opened SpecMetadata
  import opened SpecCorpus
  import SizeRatchet

  datatype Report =
    | CorpusReport(violation: Violation)
    | SizeReport(size: SizeRatchet.Violation)
    | LayoutReport(doc: nat)
    | ContentReport(doc: nat, line: nat, audited: bool)

  /** Lines that only a running migration may hold: a wrapper heading, or a criterion that defers to
      other text. */
  datatype Content = Content(wrapper: string -> bool, deferring: string -> bool) {
    predicate Debt(line: string) {
      wrapper(line) || deferring(line)
    }
  }

  // ----- Migrations

  /** The metadata of a readable system page. */
  function PageMetadata(d: Doc): Option<Metadata> {
    if !RoleOf(d).Index? then None
    else
      match Parse(d.Lines(), true)
      case Parsed(m, _) => Some(m)
      case Failed(_, _) => None
  }

  predicate Versioned(m: Metadata) {
    "specification_version" in m && m["specification_version"] == Scalar("1")
  }

  /** A list is looked up in a set of texts, which Python refuses: the run stops. */
  predicate Aborts(d: Doc) {
    var m := PageMetadata(d);
    m.Some? && Versioned(m.value) && "migration" in m.value && m.value["migration"].Items?
  }

  /** The migration status a page declares. */
  function Declares(d: Doc): Option<string> {
    match PageMetadata(d)
    case None => None
    case Some(m) =>
      if !Versioned(m) || "migration" !in m then None
      else
        match m["migration"]
        case Items(_) => None
        case Scalar(status) => if status in VALID_MIGRATION_STATUSES then Some(status) else None
  }

  /** The system and status a document announces. */
  function Announces(d: Doc): Option<(string, string)> {
    if RoleOf(d).Index? && Declares(d).Some? then Some((RoleOf(d).system, Declares(d).value)) else None
  }

  function LastStatus(announces: Doc -> Option<(string, string)>, docs: seq<Doc>, system: string): Option<string> {
    if docs == [] then None
    else
      var n := |docs| - 1;
      match announces(docs[n])
      case Some((owner, status)) =>
        if owner == system then Some(status) else LastStatus(announces, docs[..n], system)
      case None => LastStatus(announces, docs[..n], system)
  }

  function StatusOf(docs: seq<Doc>, system: string): Option<string> {
    LastStatus(Announces, docs, system)
  }

  /** A page declares a status if it is a readable README page of a system with version 1 and gives one
      of the two known statuses as a scalar; it stops the run if it gives a list instead. */
  lemma DeclaresIff(d: Doc, system: string, status: string)
    ensures var (kind, owner) := ClassifyPath(d.parts);
            var parsed := Parse(d.Lines(), true);
            var versioned :=
              && kind == SystemIndex && d.parts[|d.parts| - 1] == "README.md" && parsed.Parsed?
              && "specification_version" in parsed.metadata
              && parsed.metadata["specification_version"] == Scalar("1")
              && "migration" in parsed.metadata;
            && (RoleOf(d) == Index(system) && Declares(d) == Some(status) <==>
                  && versioned && owner == Some(system) && parsed.metadata["migration"] == Scalar(status)
                  && status in {"in_progress", "complete"})
            && (Aborts(d) <==> versioned && parsed.metadata["migration"].Items?)
  {
    SystemsOfKinds(d.parts);
  }

  method CollectMigrations(docs: seq<Doc>) returns (migrations: Option<map<string, string>>)
    ensures migrations.Some? <==> forall d | d in docs :: !Aborts(d)
    ensures migrations.Some? ==>
              forall s :: (if s in migrations.value then Some(migrations.value[s]) else None) == StatusOf(docs, s)
  {
    var found: map<string, string> := map[];
    for k := 0 to |docs|
      invariant forall d | d in docs[..k] :: !Aborts(d)
      invariant forall s :: (if s in found then Some(found[s]) else None) == StatusOf(docs[..k], s)
    {
      assert docs[..k + 1] == docs[..k] + [docs[k]] && docs[..k + 1][..k] == docs[..k];
      if Aborts(docs[k]) {
        return None;
      }
      if RoleOf(docs[k]).Index? {
        var status := Declares(docs[k]);
        if status.Some? {
          found := found[RoleOf(docs[k]).system := status.value];
        }
      }
    }
    assert docs[..|docs|] == docs;
    return Some(found);
  }

  lemma {:induction false} OnlyStatus(
    announces: Doc -> Option<(string, string)>, docs: seq<Doc>, system: string, status: string)
    requires forall i, j | 0 <= i < j < |docs| ::
               announces(docs[i]).None? || announces(docs[j]).None?
               || announces(docs[i]).value.0 != system || announces(docs[j]).value.0 != system
    ensures LastStatus(announces, docs, system) == Some(status) <==>
            exists d | d in docs :: announces(d) == Some((system, status))
  {
    if docs != [] {
      var n := |docs| - 1;
      OnlyStatus(announces, docs[..n], system, status);
      assert docs == docs[..n] + [docs[n]];
    }
  }

  /** Where every system has one page, its status is what that page declares. */
  lemma PageDecides(docs: seq<Doc>, system: string, status: string)
    requires forall i, j | 0 <= i < j < |docs| :: !(RoleOf(docs[i]) == RoleOf(docs[j]) == Index(system))
    ensures StatusOf(docs, system) == Some(status) <==>
            exists d | d in docs :: RoleOf(d) == Index(system) && Declares(d) == Some(status)
  {
    OnlyStatus(Announces, docs, system, status);
    assert forall d :: Announces(d) == Some((system, status)) <==>
                       RoleOf(d) == Index(system) && Declares(d) == Some(status);
  }

  // ----- What migrations forbid

  function Directory(parts: seq<string>): Option<string> {
    var k := IndexOf(parts, "specs", 0);
    if k + 1 < |parts| then Some(parts[k + 1]) else None
  }

  /** A legacy file in the directory of a migrated system. */
  predicate Misplaced(docs: seq<Doc>, d: Doc) {
    var directory := Directory(d.parts);
    ClassifyPath(d.parts).0 == Legacy && directory.Some? && StatusOf(docs, directory.value) == Some("complete")
  }

  /** The directory is the one right below `specs`. */
  lemma DirectoryIs(before: seq<string>, inside: seq<string>)
    requires "specs" !in before
    ensures Directory(before + (["specs"] + inside)) == if inside == [] then None else Some(inside[0])
  {
    var parts := before + (["specs"] + inside);
    assert forall i | 0 <= i < |before| :: parts[i] == before[i];
    assert parts[|before|] == "specs";
    IndexIs(parts, "specs", |before|);
    assert parts[|before| + 1..] == inside;
  }

  /** Debt counts once a migration is complete, and while it is in progress if it is audited. */
  predicate Blocking(status: Option<string>, audit: bool) {
    status == Some("complete") || (status == Some("in_progress") && audit)
  }

  /** The migration status that governs a requirement or design. */
  function Governing(docs: seq<Doc>, d: Doc): Option<string> {
    match RoleOf(d)
    case Requirements(system) => StatusOf(docs, system)
    case Design(system) => StatusOf(docs, system)
    case _ => None
  }

  predicate Indebted(content: Content, docs: seq<Doc>, d: Doc, audit: bool) {
    Blocking(Governing(docs, d), audit) && exists line | line in d.Lines() :: content.Debt(line)
  }

  /** No file is left behind in a migrated system, and no canonical document of a completed, or audited,
      migration holds migration debt. */
  ghost predicate Migrated(content: Content, docs: seq<Doc>, audit: bool) {
    forall d | d in docs :: !Misplaced(docs, d) && !Indebted(content, docs, d, audit)
  }

  /** Legacy files stay out of the directory of a completed system. */
  ghost predicate WellPlaced(docs: seq<Doc>, d: Doc) {
    forall s | ClassifyPath(d.parts).0 == Legacy && Directory(d.parts) == Some(s) ::
      StatusOf(docs, s) != Some("complete")
  }

  /** Requirements and designs of a completed system, or of one in progress that is audited, have no
      wrapper heading and no deferring criterion. */
  ghost predicate PaidOff(content: Content, docs: seq<Doc>, audit: bool, d: Doc) {
    forall s | ClassifyPath(d.parts) in {(Requirement, Some(s)), (SystemDesign, Some(s))}
               && (StatusOf(docs, s) == Some("complete") || (audit && StatusOf(docs, s) == Some("in_progress"))) ::
      forall line | line in d.Lines() :: !content.wrapper(line) && !content.deferring(line)
  }

  lemma WellPlacedIff(docs: seq<Doc>, d: Doc)
    ensures WellPlaced(docs, d) <==> !Misplaced(docs, d)
  {}

  lemma PaidOffIff(content: Content, docs: seq<Doc>, audit: bool, d: Doc)
    ensures PaidOff(content, docs, audit, d) <==> !Indebted(content, docs, d, audit)
  {
    SystemsOfKinds(d.parts);
    assert (forall line | line in d.Lines() :: !content.wrapper(line) && !content.deferring(line)) <==>
           !exists line | line in d.Lines() :: content.Debt(line);
  }

  lemma MigratedMeans(content: Content, docs: seq<Doc>, audit: bool)
    ensures Migrated(content, docs, audit) <==>
            forall d | d in docs :: WellPlaced(docs, d) && PaidOff(content, docs, audit, d)
  {
    forall d ensures WellPlaced(docs, d) <==> !Misplaced(docs, d) {
      WellPlacedIff(docs, d);
    }
    forall d ensures PaidOff(content, docs, audit, d) <==> !Indebted(content, docs, d, audit) {
      PaidOffIff(content, docs, audit, d);
    }
  }

  /** One report for each line and kind of debt; the rule's name depends on the status. */
  method CheckMigrationContent(content: Content, d: Doc, i: nat, migration: string, audit: bool)
    returns (reports: seq<Report>)
    ensures forall r :: r in reports <==>
              && Blocking(Some(migration), audit) && r.ContentReport? && r.doc == i
              && r.audited == (migration == "in_progress")
              && 1 <= r.line <= |d.Lines()|
              && (content.wrapper(d.Lines()[r.line - 1]) || content.deferring(d.Lines()[r.line - 1]))
  {
    reports := [];
    if migration == "in_progress" && !audit {
      return;
    }
    if migration !in VALID_MIGRATION_STATUSES {
      return;
    }
    var lines := d.Lines();
    for k := 0 to |lines|
      invariant forall r :: r in reports <==>
                  && r.ContentReport? && r.doc == i && r.audited == (migration == "in_progress")
                  && 1 <= r.line <= k && content.Debt(lines[r.line - 1])
    {
      if content.wrapper(lines[k]) {
        reports := reports + [ContentReport(i, k + 1, migration == "in_progress")];
      }
      if content.deferring(lines[k]) {
        reports := reports + [ContentReport(i, k + 1, migration == "in_progress")];
      }
    }
  }

  /** Exactly the reports about migrations. */
  ghost predicate MigrationReported(content: Content, docs: seq<Doc>, audit: bool, r: Report) {
    match r
    case LayoutReport(i) => i < |docs| && Misplaced(docs, docs[i])
    case ContentReport(i, line, audited) =>
      && i < |docs| && Blocking(Governing(docs, docs[i]), audit)
      && audited == (Governing(docs, docs[i]) == Some("in_progress"))
      && 1 <= line <= |docs[i].Lines()| && content.Debt(docs[i].Lines()[line - 1])
    case _ => false
  }

  method CheckMigrationOf(
    content: Content, docs: seq<Doc>, k: nat, audit: bool, migrations: map<string, string>)
    returns (reports: seq<Report>)
    requires k < |docs|
    requires forall s :: (if s in migrations then Some(migrations[s]) else None) == StatusOf(docs, s)
    ensures forall r :: r in reports <==> MigrationReported(content, docs, audit, r) && r.doc == k
  {
    reports := [];
    var d := docs[k];
    var directory := Directory(d.parts);
    if ClassifyPath(d.parts).0 == Legacy && directory.Some?
       && directory.value in migrations && migrations[directory.value] == "complete" {
      reports := reports + [LayoutReport(k)];
    }
    var role := RoleOf(d);
    if (role.Requirements? || role.Design?) && role.system in migrations {
      var debt := CheckMigrationContent(content, d, k, migrations[role.system], audit);
      reports := reports + debt;
    }
  }

  method CheckMigrations(content: Content, docs: seq<Doc>, audit: bool, migrations: map<string, string>)
    returns (reports: seq<Report>)
    requires forall s :: (if s in migrations then Some(migrations[s]) else None) == StatusOf(docs, s)
    ensures forall r :: r in reports <==> MigrationReported(content, docs, audit, r)
  {
    reports := [];
    for k := 0 to |docs|
      invariant forall r :: r in reports <==> MigrationReported(content, docs, audit, r) && r.doc < k
    {
      var more := CheckMigrationOf(content, docs, k, audit, migrations);
      reports := reports + more;
    }
  }

  /** Nothing is reported exactly when migrations have left no debt. */
  lemma NothingReportedIffMigrated(content: Content, docs: seq<Doc>, audit: bool)
    ensures (forall r :: !MigrationReported(content, docs, audit, r)) <==> Migrated(content, docs, audit)
  {
    if forall r :: !MigrationReported(content, docs, audit, r) {
      forall d | d in docs ensures !Misplaced(docs, d) && !Indebted(content, docs, d, audit) {
        var i :| 0 <= i < |docs| && docs[i] == d;
        assert !MigrationReported(content, docs, audit, LayoutReport(i));
        forall line | line in d.Lines() ensures !(Blocking(Governing(docs, d), audit) && content.Debt(line)) {
          var k :| 0 <= k < |d.Lines()| && d.Lines()[k] == line;
          var audited := Governing(docs, d) == Some("in_progress");
          assert !MigrationReported(content, docs, audit, ContentReport(i, k + 1, audited));
        }
      }
    }
    if r :| MigrationReported(content, docs, audit, r) {
      assert docs[r.doc] in docs;
      if r.ContentReport? {
        assert docs[r.doc].Lines()[r.line - 1] in docs[r.doc].Lines();
      }
    }
  }

  // ----- The run

  /** Exactly the reports of a run. */
  ghost predicate Deserved(
    p: Patterns, content: Content, docs: seq<Doc>, audit: bool,
    revision: SizeRatchet.Revision, previous: Option<SizeRatchet.Catalog>, r: Report)
  {
    match r
    case CorpusReport(v) => Reported(Corpus(p, docs), v)
    case SizeReport(v) => SizeRatchet.SizeReported(revision, previous, v)
    case _ => MigrationReported(content, docs, audit, r)
  }

  /** The run stops exactly when a size in the exception catalog has too many digits or a versioned
      system page gives its migration as a list. Otherwise it reports exactly what it should, and
      nothing exactly when the corpus is integral, migrations have left no debt and all sizes are in
      order. */
  method LintSpecs(
    p: Patterns, content: Content, docs: seq<Doc>, audit: bool,
    revision: SizeRatchet.Revision, previous: Option<SizeRatchet.Catalog>)
    returns (outcome: Option<seq<Report>>)
    ensures outcome.None? <==> SizeRatchet.Stops(revision.catalogLines) || exists d | d in docs :: Aborts(d)
    ensures outcome.Some? ==>
              forall r :: r in outcome.value <==> Deserved(p, content, docs, audit, revision, previous, r)
    ensures outcome.Some? ==>
              (outcome.value == [] <==>
                 && Integral(Corpus(p, docs))
                 && Migrated(content, docs, audit)
                 && SizeRatchet.SizesClean(revision, previous))
  {
    var sizes := SizeRatchet.CheckRevision(revision, previous);
    if sizes.None? {
      return None;
    }
    var migrations := CollectMigrations(docs);
    if migrations.None? {
      return None;
    }
    var migrationReports := CheckMigrations(content, docs, audit, migrations.value);
    var violations := LintCorpus(p, docs);
    var reports := migrationReports + CorpusReports(violations) + SizeReports(sizes.value);
    forall r ensures r in reports <==> Deserved(p, content, docs, audit, revision, previous, r) {
      ReportsHave(violations, sizes.value, r);
    }
    NothingReportedIffMigrated(content, docs, audit);
    EmptyIff(content, docs, audit, migrationReports);
    return Some(reports);
  }

  lemma EmptyIff(content: Content, docs: seq<Doc>, audit: bool, reports: seq<Report>)
    requires forall r :: r in reports <==> MigrationReported(content, docs, audit, r)
    ensures reports == [] <==> forall r :: !MigrationReported(content, docs, audit, r)
  {
    if reports != [] {
      assert reports[0] in reports;
    }
  }

  function CorpusReports(vs: seq<Violation>): seq<Report> {
    seq(|vs|, i requires 0 <= i < |vs| => CorpusReport(vs[i]))
  }

  function SizeReports(vs: seq<SizeRatchet.Violation>): seq<Report> {
    seq(|vs|, i requires 0 <= i < |vs| => SizeReport(vs[i]))
  }

  lemma ReportsHave(vs: seq<Violation>, sizes: seq<SizeRatchet.Violation>, r: Report)
    ensures r in CorpusReports(vs) <==> r.CorpusReport? && r.violation in vs
    ensures r in SizeReports(sizes) <==> r.SizeReport? && r.size in sizes
  {
    if r.CorpusReport? && r.violation in vs {
      var i :| 0 <= i < |vs| && vs[i] == r.violation;
      assert CorpusReports(vs)[i] == r;
    }
    if r.SizeReport? && r.size in sizes {
      var i :| 0 <= i < |sizes| && sizes[i] == r.size;
      assert SizeReports(sizes)[i] == r;
    }
  }

  // ----- An accepted page that stops the run

  const PAGE := ["docs", "specs", "x", "README.md"]

  lemma PageIsIndex(text: string)
    ensures ClassifyPath(PAGE) == (SystemIndex, Some("x")) && RoleOf(Doc(PAGE, text)) == Index("x")
  {
    assert IndexOf(PAGE, "specs", 0) == 1;
    assert PAGE[2..] == ["x", "README.md"];
  }

  ghost predicate Declared(m: Metadata) {
    && "system" in m && m["system"] == Scalar("x") && "status" in m && m["status"] == Scalar("active")
    && Versioned(m) && "migration" in m && m["migration"] == Items(["complete"])
  }

  lemma DeclaredIsAccepted(m: Metadata)
    requires Declared(m)
    ensures ValidateMetadata(SystemIndex, Some("x"), m, true) == []
  {
    TrimKeeps("x", IsSpace);
    TrimKeeps("active", IsSpace);
    TrimKeeps("1", IsSpace);
    assert JoinItems(["complete"]) == "complete";
  }

  lemma MeaningNext(base: Metadata, e: Entry, rest: seq<Entry>)
    ensures Meaning(base, [e] + rest) == Meaning(base[e.key := e.field], rest)
  {
    assert ([e] + rest)[1..] == rest;
  }

  lemma MeaningOfFour(a: Entry, b: Entry, c: Entry, d: Entry)
    requires |{a.key, b.key, c.key, d.key}| == 4
    ensures var m := Meaning(map[], [a] + ([b] + ([c] + ([d] + []))));
            m == map[a.key := a.field, b.key := b.field, c.key := c.field, d.key := d.field]
  {
    MeaningNext(map[], a, [b] + ([c] + ([d] + [])));
    var m := map[a.key := a.field];
    MeaningNext(m, b, [c] + ([d] + []));
    MeaningNext(m[b.key := b.field], c, [d] + []);
    MeaningNext(m[b.key := b.field][c.key := c.field], d, []);
  }

  const SYSTEM := Entry("system", Scalar("x"))
  const STATUS := Entry("status", Scalar("active"))
  const VERSION := Entry("specification_version", Scalar("1"))
  const MIGRATION := Entry("migration", Items(["complete"]))

  lemma SystemIsWritable()
    ensures Writable(SYSTEM)
  {}

  lemma StatusIsWritable()
    ensures Writable(STATUS)
  {}

  lemma VersionIsWritable()
    ensures Writable(VERSION)
  {}

  lemma MigrationIsWritable()
    ensures Writable(MIGRATION)
  {}

  lemma KeysDiffer()
    ensures |{SYSTEM.key, STATUS.key, VERSION.key, MIGRATION.key}| == 4
  {
    assert SYSTEM.key[1] != STATUS.key[1];
    assert |VERSION.key| > |MIGRATION.key| > |STATUS.key| == |SYSTEM.key|;
  }

  lemma DeclaredText() returns (entries: seq<Entry>)
    ensures (forall i | 0 <= i < |entries| :: Writable(entries[i])) && Declared(Meaning(map[], entries))
  {
    entries := [SYSTEM] + ([STATUS] + ([VERSION] + ([MIGRATION] + [])));
    SystemIsWritable();
    StatusIsWritable();
    VersionIsWritable();
    MigrationIsWritable();
    KeysDiffer();
    MeaningOfFour(SYSTEM, STATUS, VERSION, MIGRATION);
  }

  lemma DeclaredAborts(d: Doc, m: Metadata, end: nat)
    requires d.parts == PAGE && Parse(d.Lines(), true) == Parsed(m, end) && Declared(m)
    ensures Aborts(d) && LinterViolations(d.parts, d.Lines()) == []
  {
    PageIsIndex(d.text);
    DeclaredIsAccepted(m);
  }

  /** The metadata contract takes a list for its joined text, so a page can satisfy it and still stop
      the run. */
  lemma AcceptedPageCanAbort() returns (d: Doc)
    ensures Aborts(d) && LinterViolations(d.parts, d.Lines()) == []
  {
    var entries := DeclaredText();
    d := Doc(PAGE, JoinLines(Written(entries)) + "");
    WrittenReadsBack(entries, "", true);
    DeclaredAborts(d, Meaning(map[], entries), |Body(entries)| + 2);
  }
}
