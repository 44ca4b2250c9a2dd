/** Validation of the compatibility ledger: which entries are in order, and which findings they
    exempt from the baselines. */
module CompatibilityLedger {
  import opened Wrappers
  import opened ArchitectureModel
  import opened Regex
  import opened Strings
  import PythonText
  import Semver

  /** Repository state a ledger is checked against: the text of each tracked file, today's date as a
      day number, and the ISO date reader. */
  datatype Repository = Repository(sources: map<string, string>, today: int, date: string -> Option<int>)

  datatype Issue =
    | NotAnObject | InvalidId | DuplicateId | EmptyField(name: string)
    | IntroducedOnce | BadIntroducedDate | IntroducedInFuture | BadIntroducedVersion
    | RemovedOnce | BadRemovalDate | Expired | BadRemovalVersion
    | NoLocator | NoLocatorPath | NoLocatorMarker | EmptyDeclaration | Untracked | MarkerGone

  datatype Diagnostic =
    | BadLedger
    | EntryIssue(entry: nat, issue: Issue)
    | AmbiguousDeclaration(declaration: Declaration)
    | DuplicateRegistration(entry: nat, declaration: Declaration)
    | NoSuchDeclaration(entry: nat, declaration: Declaration)

  // ----- One entry

  predicate Alphanumeric(c: char) {
    'a' <= c <= 'z' || '0' <= c <= '9'
  }

  /** What STABLE_ID.fullmatch decides. */
  predicate StableId(s: string) {
    && s != [] && Alphanumeric(s[0]) && Alphanumeric(s[|s| - 1])
    && forall i | 0 <= i < |s| :: Alphanumeric(s[i]) || s[i] in "._-"
  }

  ghost const ID_HEAD := Plus(One(Alphanumeric))
  ghost const ID_TAIL := Then(Star(One(IsIdChar)), One(Alphanumeric))
  ghost const STABLE_ID := Then(ID_HEAD, Optional(ID_TAIL))

  predicate IsIdChar(c: char) {
    Alphanumeric(c) || c in "._-"
  }

  lemma HeadIsAccepted(s: string)
    requires |s| == 1 && Alphanumeric(s[0])
    ensures Accepts(ID_HEAD, s)
  {
    HeadAndTail(Alphanumeric, Star(One(Alphanumeric)), s);
    StarOfClass(Alphanumeric, s[1..]);
  }

  lemma TailIsAccepted(s: string)
    requires s != "" && Alphanumeric(s[|s| - 1]) && forall i | 0 <= i < |s| :: IsIdChar(s[i])
    ensures Accepts(ID_TAIL, s)
  {
    var n := |s| - 1;
    StarOfClass(IsIdChar, s[..n]);
    Joins(Star(One(IsIdChar)), One(Alphanumeric), s[..n], s[n..]);
    assert s == s[..n] + s[n..];
  }

  lemma AcceptedWithTail(a: Regex, b: Regex, s: string)
    requires s != "" && Accepts(a, s[..1]) && (s[1..] != "" ==> Accepts(b, s[1..]))
    ensures Accepts(Then(a, Optional(b)), s)
  {
    assert Accepts(Optional(b), s[1..]);
    Joins(a, Optional(b), s[..1], s[1..]);
    assert s == s[..1] + s[1..];
  }

  lemma StableIdTextIsAccepted(s: string)
    requires StableId(s)
    ensures Accepts(STABLE_ID, s)
  {
    HeadIsAccepted(s[..1]);
    if |s| > 1 {
      TailIsAccepted(s[1..]);
    }
    AcceptedWithTail(ID_HEAD, ID_TAIL, s);
  }

  lemma AcceptedIsStableId(s: string)
    requires Accepts(STABLE_ID, s)
    ensures StableId(s)
  {
    var a, b := Splits(ID_HEAD, Optional(ID_TAIL), s);
    AcceptedHead(a);
    if b != "" {
      AcceptedTail(b);
      assert s[|s| - 1] == b[|b| - 1] && s[0] == a[0];
      assert forall i | |a| <= i < |s| :: s[i] == b[i - |a|];
    } else {
      assert s == a;
    }
  }

  lemma AcceptedHead(a: string)
    requires Accepts(ID_HEAD, a)
    ensures a != "" && forall i | 0 <= i < |a| :: Alphanumeric(a[i])
  {
    HeadAndTail(Alphanumeric, Star(One(Alphanumeric)), a);
    StarOfClass(Alphanumeric, a[1..]);
    assert forall i | 1 <= i < |a| :: a[i] == a[1..][i - 1];
  }

  lemma AcceptedTail(b: string)
    requires Accepts(ID_TAIL, b)
    ensures b != "" && Alphanumeric(b[|b| - 1]) && forall i | 0 <= i < |b| :: IsIdChar(b[i])
  {
    var c, d := Splits(Star(One(IsIdChar)), One(Alphanumeric), b);
    StarOfClass(IsIdChar, c);
    assert |b| == |c| + 1 && b[|c|] == d[0];
    assert forall i | 0 <= i < |c| :: b[i] == c[i];
  }

  /** Identifiers are stable exactly when the pattern accepts them. */
  lemma StableIdIff(s: string)
    ensures StableId(s) <==> Accepts(STABLE_ID, s)
  {
    if StableId(s) {
      StableIdTextIsAccepted(s);
    }
    if Accepts(STABLE_ID, s) {
      AcceptedIsStableId(s);
    }
  }

  predicate HasText(fields: map<string, Json>, name: string) {
    Field(fields, name).Text? && !PythonText.Blank(Field(fields, name).s)
  }

  predicate NonemptyText(j: Json) {
    j.Text? && j.s != []
  }

  /** Shared shape of the introduction and removal checks: exactly one of a date and a version. */
  function OneOf(
    fields: map<string, Json>, repo: Repository, dateField: string, versionField: string,
    once: Issue, badDate: Issue, badVersion: Issue, late: int -> bool, lateIssue: Issue): Option<Issue>
  {
    if (dateField in fields) == (versionField in fields) then Some(once)
    else if dateField in fields then
      match fields[dateField]
      case Text(s) =>
        (match repo.date(s)
         case None => Some(badDate)
         case Some(day) => if late(day) then Some(lateIssue) else None)
      case _ => Some(badDate)
    else
      match fields[versionField]
      case Text(s) => if Semver.Matches(s) then None else Some(badVersion)
      case _ => Some(badVersion)
  }

  function IntroductionIssue(fields: map<string, Json>, repo: Repository): Option<Issue> {
    OneOf(fields, repo, "introduced_on", "introduced_version",
          IntroducedOnce, BadIntroducedDate, BadIntroducedVersion, day => day > repo.today, IntroducedInFuture)
  }

  function RemovalIssue(fields: map<string, Json>, repo: Repository): Option<Issue> {
    OneOf(fields, repo, "target_removal_date", "target_removal_version",
          RemovedOnce, BadRemovalDate, BadRemovalVersion, day => day < repo.today, Expired)
  }

  function LocatorIssue(fields: map<string, Json>, repo: Repository): Option<Issue> {
    match Field(fields, "locator")
    case Object(locator) =>
      var path, marker := Field(locator, "path"), Field(locator, "marker");
      if !NonemptyText(path) then Some(NoLocatorPath)
      else if !NonemptyText(marker) then Some(NoLocatorMarker)
      else if "declaration" in locator && !HasText(locator, "declaration") then Some(EmptyDeclaration)
      else if path.s !in repo.sources then Some(Untracked)
      else if !PythonText.Contains(repo.sources[path.s], marker.s) then Some(MarkerGone)
      else None
    case _ => Some(NoLocator)
  }

  /** The declaration an entry registers, if its locator names one. */
  function Registration(entry: Json): Option<Declaration> {
    match entry
    case Object(fields) =>
      (match Field(fields, "locator")
       case Object(locator) =>
         var path, name, marker := Field(locator, "path"), Field(locator, "declaration"), Field(locator, "marker");
         if "declaration" in locator && NonemptyText(path) && NonemptyText(name) && NonemptyText(marker)
         then Some(Declaration(path.s, name.s, marker.s))
         else None
       case _ => None)
    case _ => None
  }

  function IdOf(entry: Json): Option<string> {
    match entry
    case Object(fields) => (match Field(fields, "id") case Text(s) => Some(s) case _ => None)
    case _ => None
  }

  function Optionally(o: Option<Issue>): seq<Issue> {
    if o.Some? then [o.value] else []
  }

  function IdIssues(entry: Json, repeated: bool): seq<Issue> {
    (if IdOf(entry).None? || !StableId(IdOf(entry).value) then [InvalidId] else [])
    + (if repeated then [DuplicateId] else [])
  }

  const REQUIRED := ["reason", "owner", "removal_condition"]

  function FieldIssues(fields: map<string, Json>, names: seq<string>): seq<Issue> {
    if names == [] then []
    else
      FieldIssues(fields, names[..|names| - 1])
      + (if HasText(fields, names[|names| - 1]) then [] else [EmptyField(names[|names| - 1])])
  }

  /** Everything reported about one entry, given whether its id occurs more than once. */
  function Issues(entry: Json, repeated: bool, repo: Repository): seq<Issue> {
    match entry
    case Object(fields) =>
      IdIssues(entry, repeated)
      + FieldIssues(fields, REQUIRED)
      + Optionally(IntroductionIssue(fields, repo))
      + Optionally(RemovalIssue(fields, repo))
      + Optionally(LocatorIssue(fields, repo))
    case _ => [NotAnObject]
  }

  // ----- The ledger as a whole

  function Ids(entries: seq<Json>): seq<Option<string>> {
    seq(|entries|, i requires 0 <= i < |entries| => IdOf(entries[i]))
  }

  predicate Repeated(entries: seq<Json>, i: nat)
    requires i < |entries|
  {
    IdOf(entries[i]).Some? && Occurrences(Ids(entries), IdOf(entries[i])) > 1
  }

  function EntryIssues(entries: seq<Json>, repo: Repository, i: nat): seq<Issue>
    requires i < |entries|
  {
    Issues(entries[i], Repeated(entries, i), repo)
  }

  /** An entry without a diagnostic of its own, said without counting: its id is unique. */
  ghost predicate Clean(entries: seq<Json>, repo: Repository, i: nat)
    requires i < |entries|
  {
    && entries[i].Object?
    && IdOf(entries[i]).Some? && StableId(IdOf(entries[i]).value)
    && (forall j | 0 <= j < |entries| && j != i :: IdOf(entries[j]) != IdOf(entries[i]))
    && (forall name | name in REQUIRED :: HasText(entries[i].fields, name))
    && IntroductionIssue(entries[i].fields, repo).None?
    && RemovalIssue(entries[i].fields, repo).None?
    && LocatorIssue(entries[i].fields, repo).None?
  }

  /** What the clean entries register, by entry number. */
  ghost function Registers(entries: seq<Json>, repo: Repository): map<nat, Declaration> {
    map i: nat | i < |entries| && Clean(entries, repo, i) && Registration(entries[i]).Some? ::
      Registration(entries[i]).value
  }

  /** Entry `i` alone registers `d`. */
  ghost predicate Claims(regs: map<nat, Declaration>, i: nat, d: Declaration) {
    i in regs && regs[i] == d && forall j | j in regs && j != i :: regs[j] != d
  }

  /** Finding `f` is exempted by entry `i`. */
  ghost predicate ExemptedBy(regs: map<nat, Declaration>, findings: seq<Finding>, i: nat, f: Finding) {
    && Declared(f).Some?
    && Claims(regs, i, Declared(f).value)
    && LastRegistrable(findings, Declared(f).value) == Some(f)
  }

  ghost predicate Exempted(regs: map<nat, Declaration>, findings: seq<Finding>, f: Finding) {
    exists i | i in regs :: ExemptedBy(regs, findings, i, f)
  }

  /** Nothing in the ledger is reported. */
  ghost predicate InOrder(entries: seq<Json>, repo: Repository, findings: seq<Finding>) {
    && (forall i | 0 <= i < |entries| :: Clean(entries, repo, i))
    && (forall f | f in findings && Ambiguous(f) :: Declared(f).None?)
    && Matched(Registers(entries, repo), findings)
  }

  /** Every registration is undisputed and names a current finding. */
  ghost predicate Matched(regs: map<nat, Declaration>, findings: seq<Finding>) {
    forall i | i in regs :: Claims(regs, i, regs[i]) && LastRegistrable(findings, regs[i]).Some?
  }

  /** The reports about an entry are empty exactly when it is in order. */
  lemma CleanIff(entries: seq<Json>, repo: Repository, i: nat)
    requires i < |entries|
    ensures EntryIssues(entries, repo, i) == [] <==> Clean(entries, repo, i)
  {
    OccursAgainIff(Ids(entries), i);
    assert forall j | 0 <= j < |entries| :: Ids(entries)[j] == IdOf(entries[j]);
    if entries[i].Object? {
      FieldsIff(entries[i].fields, REQUIRED);
    }
  }

  lemma {:induction false} FieldsIff(fields: map<string, Json>, names: seq<string>)
    ensures FieldIssues(fields, names) == [] <==> forall name | name in names :: HasText(fields, name)
  {
    if names != [] {
      FieldsIff(fields, names[..|names| - 1]);
      assert names == names[..|names| - 1] + [names[|names| - 1]];
    }
  }

  // ----- What validation reports

  predicate VersionOne(j: Json) {
    j == Number(1) || j == Bool(true)
  }

  function Entries(data: Json): Option<seq<Json>> {
    match data
    case Object(fields) =>
      (match (VersionOne(Field(fields, "version")), Field(fields, "entries"))
       case (true, List(items)) => Some(items)
       case _ => None)
    case _ => None
  }

  /** Repeated declarations are told apart by a trailing `#n`; reports drop it. */
  function Undistinguished(d: Declaration): Declaration {
    var k := LastIndex(d.name, '#');
    if k == -1 then d else d.(name := d.name[..k])
  }

  /** Exactly the diagnostics a ledger deserves. */
  ghost predicate Deserved(entries: seq<Json>, repo: Repository, findings: seq<Finding>, d: Diagnostic) {
    match d
    case BadLedger => false
    case EntryIssue(i, issue) => i < |entries| && issue in EntryIssues(entries, repo, i)
    case AmbiguousDeclaration(decl) => AmbiguityDeserved(findings, decl)
    case _ => RegistrationDeserved(Registers(entries, repo), findings, d)
  }

  ghost predicate AmbiguityDeserved(findings: seq<Finding>, decl: Declaration) {
    exists f | f in findings :: Ambiguous(f) && Declared(f).Some? && decl == Undistinguished(Declared(f).value)
  }

  ghost predicate RegistrationDeserved(regs: map<nat, Declaration>, findings: seq<Finding>, d: Diagnostic) {
    match d
    case DuplicateRegistration(i, decl) => i in regs && regs[i] == decl && !Claims(regs, i, decl)
    case NoSuchDeclaration(i, decl) => Claims(regs, i, decl) && LastRegistrable(findings, decl).None?
    case _ => false
  }

  // ----- The validator

  method CheckId(entry: Json, seen: set<string>, counts: map<string, nat>)
    returns (issues: seq<Issue>, seen': set<string>)
    requires forall id | id in seen :: IdOf(entry) == Some(id) ==> id in counts && counts[id] > 1
    ensures issues == IdIssues(entry, IdOf(entry).Some? && IdOf(entry).value in counts && counts[IdOf(entry).value] > 1)
    ensures seen' <= seen + (if IdOf(entry).Some? then {IdOf(entry).value} else {})
  {
    issues, seen' := [], seen;
    var id := IdOf(entry);
    if id.None? || !StableId(id.value) {
      issues := [InvalidId];
    } else if id.value in seen {
      issues := [DuplicateId];
    } else {
      seen' := seen + {id.value};
    }
    if id.Some? && id.value in counts && counts[id.value] > 1 {
      if DuplicateId !in issues {
        issues := issues + [DuplicateId];
      }
    }
  }

  method CheckFields(fields: map<string, Json>) returns (issues: seq<Issue>)
    ensures issues == FieldIssues(fields, REQUIRED)
  {
    issues := [];
    for k := 0 to |REQUIRED|
      invariant issues == FieldIssues(fields, REQUIRED[..k])
    {
      assert REQUIRED[..k + 1][..k] == REQUIRED[..k];
      if !HasText(fields, REQUIRED[k]) {
        issues := issues + [EmptyField(REQUIRED[k])];
      }
    }
    assert REQUIRED[..|REQUIRED|] == REQUIRED;
  }

  method CheckEntry(entry: Json, seen: set<string>, counts: map<string, nat>, repo: Repository)
    returns (issues: seq<Issue>, seen': set<string>)
    requires forall id | id in seen :: IdOf(entry) == Some(id) ==> id in counts && counts[id] > 1
    ensures issues == Issues(entry, IdOf(entry).Some? && IdOf(entry).value in counts && counts[IdOf(entry).value] > 1,
            repo)
    ensures seen' <= seen + (if IdOf(entry).Some? then {IdOf(entry).value} else {})
  {
    if !entry.Object? {
      return [NotAnObject], seen;
    }
    issues, seen' := CheckId(entry, seen, counts);
    var missing := CheckFields(entry.fields);
    issues := issues + missing;
    issues := issues + Optionally(IntroductionIssue(entry.fields, repo));
    issues := issues + Optionally(RemovalIssue(entry.fields, repo));
    issues := issues + Optionally(LocatorIssue(entry.fields, repo));
  }

  /** What each entry registers, if nothing is reported about it. */
  function Cleared(entries: seq<Json>, repo: Repository): seq<Option<Declaration>> {
    seq(|entries|, i requires 0 <= i < |entries| =>
      if EntryIssues(entries, repo, i) == [] then Registration(entries[i]) else None)
  }

  /** The present registrations with their entry numbers, in ledger order. */
  function Numbered(cleared: seq<Option<Declaration>>): seq<(nat, Declaration)> {
    if cleared == [] then []
    else
      var k := |cleared| - 1;
      Numbered(cleared[..k]) + (if cleared[k].Some? then [(k, cleared[k].value)] else [])
  }

  lemma NumberedNext(cleared: seq<Option<Declaration>>, k: nat)
    requires k < |cleared|
    ensures Numbered(cleared[..k + 1])
         == Numbered(cleared[..k]) + if cleared[k].Some? then [(k, cleared[k].value)] else []
  {
    assert cleared[..k + 1][..k] == cleared[..k];
  }

  function Tagged(entry: nat, issues: seq<Issue>): seq<Diagnostic> {
    seq(|issues|, m requires 0 <= m < |issues| => EntryIssue(entry, issues[m]))
  }

  lemma TaggedHas(entry: nat, issues: seq<Issue>)
    ensures forall d :: d in Tagged(entry, issues) <==> d.EntryIssue? && d.entry == entry && d.issue in issues
  {
    forall x | x in issues ensures EntryIssue(entry, x) in Tagged(entry, issues) {
      var m :| 0 <= m < |issues| && issues[m] == x;
      assert Tagged(entry, issues)[m] == EntryIssue(entry, x);
    }
  }

  /** The entry diagnostics of the first `k` entries. */
  ghost predicate EntriesReported(entries: seq<Json>, repo: Repository, k: nat, diagnostics: seq<Diagnostic>)
    requires k <= |entries|
  {
    forall d :: d in diagnostics <==> d.EntryIssue? && d.entry < k && d.issue in EntryIssues(entries, repo, d.entry)
  }

  lemma ReportNext(entries: seq<Json>, repo: Repository, k: nat, diagnostics: seq<Diagnostic>)
    requires k < |entries| && EntriesReported(entries, repo, k, diagnostics)
    ensures EntriesReported(entries, repo, k + 1, diagnostics + Tagged(k, EntryIssues(entries, repo, k)))
  {
    TaggedHas(k, EntryIssues(entries, repo, k));
  }

  method CheckEntries(entries: seq<Json>, repo: Repository)
    returns (diagnostics: seq<Diagnostic>, registrations: seq<(nat, Declaration)>)
    ensures registrations == Numbered(Cleared(entries, repo))
    ensures EntriesReported(entries, repo, |entries|, diagnostics)
  {
    var counts := Tally(Ids(entries));
    ghost var cleared := Cleared(entries, repo);
    var seen: set<string> := {};
    diagnostics, registrations := [], [];
    for k := 0 to |entries|
      invariant registrations == Numbered(cleared[..k])
      invariant Seen(entries, k, seen)
      invariant EntriesReported(entries, repo, k, diagnostics)
    {
      NumberedNext(cleared, k);
      ReportNext(entries, repo, k, diagnostics);
      var issues, seen' := CheckEntryAt(entries, k, seen, counts, repo);
      seen := seen';
      diagnostics := diagnostics + Tagged(k, issues);
      var registration := Registration(entries[k]);
      if registration.Some? && issues == [] {
        registrations := registrations + [(k, registration.value)];
      }
    }
    assert cleared[..|entries|] == cleared;
  }

  /** The identifiers seen so far come from the first `k` entries. */
  ghost predicate Seen(entries: seq<Json>, k: nat, seen: set<string>)
    requires k <= |entries|
  {
    forall id | id in seen :: exists j | 0 <= j < k :: IdOf(entries[j]) == Some(id)
  }

  method CheckEntryAt(entries: seq<Json>, k: nat, seen: set<string>, counts: map<string, nat>, repo: Repository)
    returns (issues: seq<Issue>, seen': set<string>)
    requires k < |entries| && Seen(entries, k, seen)
    requires forall x :: (if x in counts then counts[x] else 0) == Occurrences(Ids(entries), Some(x))
    ensures issues == EntryIssues(entries, repo, k)
    ensures Seen(entries, k + 1, seen')
  {
    SeenAgainIsRepeated(entries, k, seen);
    issues, seen' := CheckEntry(entries[k], seen, counts, repo);
  }

  lemma SeenAgainIsRepeated(entries: seq<Json>, k: nat, seen: set<string>)
    requires k < |entries| && Seen(entries, k, seen)
    ensures forall id | id in seen :: IdOf(entries[k]) == Some(id) ==> Occurrences(Ids(entries), Some(id)) > 1
  {
    OccursAgainIff(Ids(entries), k);
    assert forall j | 0 <= j < |entries| :: Ids(entries)[j] == IdOf(entries[j]);
    forall id | id in seen && IdOf(entries[k]) == Some(id)
      ensures Occurrences(Ids(entries), Some(id)) > 1
    {
      var j :| 0 <= j < k && IdOf(entries[j]) == Some(id);
      assert Ids(entries)[j] == Ids(entries)[k];
    }
  }

  method IndexFindings(findings: seq<Finding>)
    returns (diagnostics: seq<Diagnostic>, byDeclaration: map<Declaration, Finding>)
    ensures forall d :: (if d in byDeclaration then Some(byDeclaration[d]) else None) == LastRegistrable(findings, d)
    ensures forall d :: d in diagnostics <==> d.AmbiguousDeclaration? && AmbiguityDeserved(findings, d.declaration)
  {
    diagnostics, byDeclaration := [], map[];
    var ambiguous: set<Declaration> := {};
    for k := 0 to |findings|
      invariant forall d ::
                  (if d in byDeclaration then Some(byDeclaration[d]) else None) == LastRegistrable(findings[..k], d)
      invariant forall a :: a in ambiguous <==> AmbiguityDeserved(findings[..k], a)
      invariant forall d :: d in diagnostics <==> d.AmbiguousDeclaration? && d.declaration in ambiguous
    {
      var f := findings[k];
      var seen := findings[..k + 1];
      assert seen[..k] == findings[..k] && seen == findings[..k] + [f];
      var declared := Declared(f);
      if Ambiguous(f) {
        if declared.Some? {
          var base := Undistinguished(declared.value);
          if base !in ambiguous {
            ambiguous := ambiguous + {base};
            diagnostics := diagnostics + [AmbiguousDeclaration(base)];
          }
        }
      } else if declared.Some? {
        byDeclaration := byDeclaration[declared.value := f];
      }
    }
    assert findings[..|findings|] == findings;
  }

  /** `list` enumerates `regs`, each entry once. */
  ghost predicate Enumerates(list: seq<(nat, Declaration)>, regs: map<nat, Declaration>) {
    && (forall p | 0 <= p < |list| :: list[p].0 in regs && regs[list[p].0] == list[p].1)
    && (forall i | i in regs :: (i, regs[i]) in list)
    && (forall p, q | 0 <= p < q < |list| :: list[p].0 != list[q].0)
  }

  ghost predicate Numbers(list: seq<(nat, Declaration)>, cleared: seq<Option<Declaration>>) {
    && (forall r | r in list :: r.0 < |cleared| && cleared[r.0] == Some(r.1))
    && (forall i | 0 <= i < |cleared| && cleared[i].Some? :: (i, cleared[i].value) in list)
    && (forall p, q | 0 <= p < q < |list| :: list[p].0 != list[q].0)
  }

  type Listing = (seq<(nat, Declaration)>, seq<Option<Declaration>>) -> bool

  function Extended(list: seq<(nat, Declaration)>, k: nat, c: Option<Declaration>): seq<(nat, Declaration)> {
    if c.Some? then list + [(k, c.value)] else list
  }

  /** What holds of nothing and survives one more entry holds of all entries. */
  lemma {:induction false} ByEntry(holds: Listing, cleared: seq<Option<Declaration>>)
    requires holds([], [])
    requires forall list, init, c :: holds(list, init) ==> holds(Extended(list, |init|, c), init + [c])
    ensures holds(Numbered(cleared), cleared)
  {
    if cleared != [] {
      var k := |cleared| - 1;
      ByEntry(holds, cleared[..k]);
      assert cleared[..k] + [cleared[k]] == cleared;
      assert Numbered(cleared) == Extended(Numbered(cleared[..k]), k, cleared[k]);
    }
  }

  lemma NumberedHas(cleared: seq<Option<Declaration>>)
    ensures Numbers(Numbered(cleared), cleared)
  {
    forall list, init, c | Numbers(list, init) ensures Numbers(Extended(list, |init|, c), init + [c]) {
      NumbersExtend(list, init, c);
    }
    ByEntry(Numbers, cleared);
  }

  lemma NumbersExtend(list: seq<(nat, Declaration)>, cleared: seq<Option<Declaration>>, c: Option<Declaration>)
    requires Numbers(list, cleared)
    ensures Numbers(Extended(list, |cleared|, c), cleared + [c])
  {
    forall r | r in list ensures r.0 < |cleared| && (cleared + [c])[r.0] == Some(r.1) {}
    if c.Some? {
      NumbersAppend(list, cleared, c.value);
    } else {
      forall i | 0 <= i < |cleared + [c]| && (cleared + [c])[i].Some? ensures (i, (cleared + [c])[i].value) in list {
        assert (cleared + [c])[i] == cleared[i];
      }
    }
  }

  lemma NumbersAppend(list: seq<(nat, Declaration)>, cleared: seq<Option<Declaration>>, d: Declaration)
    requires Numbers(list, cleared)
    ensures Numbers(list + [(|cleared|, d)], cleared + [Some(d)])
  {
    var longer, more := list + [(|cleared|, d)], cleared + [Some(d)];
    forall r | r in longer ensures r.0 < |more| && more[r.0] == Some(r.1) {
      assert r in list || r == (|cleared|, d);
    }
    forall i | 0 <= i < |more| && more[i].Some? ensures (i, more[i].value) in longer {
      if i < |cleared| {
        assert (i, cleared[i].value) in list;
      } else {
        assert longer[|list|] == (i, d);
      }
    }
    forall p, q | 0 <= p < q < |longer| ensures longer[p].0 != longer[q].0 {
      assert list[p] in list;
    }
  }

  lemma ClearedAre(entries: seq<Json>, repo: Repository, i: nat)
    requires i < |entries|
    ensures i in Registers(entries, repo) <==> Cleared(entries, repo)[i].Some?
    ensures i in Registers(entries, repo) ==> Cleared(entries, repo)[i] == Some(Registers(entries, repo)[i])
  {
    CleanIff(entries, repo, i);
  }

  lemma EnumerateNumbered(cleared: seq<Option<Declaration>>, regs: map<nat, Declaration>)
    requires forall i | i in regs :: i < |cleared| && cleared[i] == Some(regs[i])
    requires forall i: nat | i < |cleared| && cleared[i].Some? :: i in regs
    ensures Enumerates(Numbered(cleared), regs)
  {
    NumberedHas(cleared);
    NumbersEnumerate(Numbered(cleared), cleared, regs);
  }

  lemma NumbersEnumerate(list: seq<(nat, Declaration)>, cleared: seq<Option<Declaration>>, regs: map<nat, Declaration>)
    requires Numbers(list, cleared)
    requires forall i | i in regs :: i < |cleared| && cleared[i] == Some(regs[i])
    requires forall i: nat | i < |cleared| && cleared[i].Some? :: i in regs
    ensures Enumerates(list, regs)
  {
    forall p | 0 <= p < |list| ensures list[p].0 in regs && regs[list[p].0] == list[p].1 {
      assert list[p] in list;
    }
    forall i | i in regs ensures (i, regs[i]) in list {
      assert cleared[i].value == regs[i];
    }
  }

  lemma RegistrationsEnumerate(entries: seq<Json>, repo: Repository)
    ensures Enumerates(Numbered(Cleared(entries, repo)), Registers(entries, repo))
  {
    var cleared, regs := Cleared(entries, repo), Registers(entries, repo);
    forall i: nat | i < |entries|
      ensures i in regs <==> cleared[i].Some?
      ensures i in regs ==> cleared[i] == Some(regs[i])
    {
      ClearedAre(entries, repo, i);
    }
    EnumerateNumbered(cleared, regs);
  }

  function Declarations(list: seq<(nat, Declaration)>): seq<Option<Declaration>> {
    seq(|list|, p requires 0 <= p < |list| => Some(list[p].1))
  }

  /** A registration is counted once exactly when its entry claims the declaration alone. */
  lemma CountedOnceIffClaims(list: seq<(nat, Declaration)>, regs: map<nat, Declaration>, p: nat)
    requires Enumerates(list, regs) && p < |list|
    ensures Occurrences(Declarations(list), Some(list[p].1)) > 1 <==> !Claims(regs, list[p].0, list[p].1)
  {
    var (i, d) := list[p];
    OccursAgainIff(Declarations(list), p);
    assert forall q | 0 <= q < |list| :: Declarations(list)[q] == Some(list[q].1);
    if j :| j in regs && j != i && regs[j] == d {
      assert (j, d) in list;
      var q :| 0 <= q < |list| && list[q] == (j, d);
      assert Declarations(list)[q] == Declarations(list)[p];
    }
    if q :| 0 <= q < |list| && q != p && Declarations(list)[q] == Declarations(list)[p] {
      assert list[q].0 != i && regs[list[q].0] == d;
    }
  }

  ghost predicate DeservedAt(
    regs: map<nat, Declaration>, findings: seq<Finding>, r: (nat, Declaration), d: Diagnostic)
  {
    if !Claims(regs, r.0, r.1) then d == DuplicateRegistration(r.0, r.1)
    else LastRegistrable(findings, r.1).None? && d == NoSuchDeclaration(r.0, r.1)
  }

  ghost predicate ExemptedAt(regs: map<nat, Declaration>, findings: seq<Finding>, r: (nat, Declaration), f: Finding) {
    Claims(regs, r.0, r.1) && LastRegistrable(findings, r.1) == Some(f)
  }

  ghost predicate ExemptedBefore(
    regs: map<nat, Declaration>, findings: seq<Finding>, list: seq<(nat, Declaration)>, m: nat, f: Finding)
  {
    m <= |list| && exists p | 0 <= p < m :: ExemptedAt(regs, findings, list[p], f)
  }

  ghost predicate DeservedBefore(
    regs: map<nat, Declaration>, findings: seq<Finding>, list: seq<(nat, Declaration)>, m: nat, d: Diagnostic)
  {
    m <= |list| && exists p | 0 <= p < m :: DeservedAt(regs, findings, list[p], d)
  }

  lemma OneMoreExempted(
    regs: map<nat, Declaration>, findings: seq<Finding>, list: seq<(nat, Declaration)>, m: nat, f: Finding)
    requires m < |list|
    ensures ExemptedBefore(regs, findings, list, m + 1, f) <==>
            ExemptedBefore(regs, findings, list, m, f) || ExemptedAt(regs, findings, list[m], f)
  {}

  lemma OneMoreDeserved(
    regs: map<nat, Declaration>, findings: seq<Finding>, list: seq<(nat, Declaration)>, m: nat, d: Diagnostic)
    requires m < |list|
    ensures DeservedBefore(regs, findings, list, m + 1, d) <==>
            DeservedBefore(regs, findings, list, m, d) || DeservedAt(regs, findings, list[m], d)
  {}

  method MatchRegistrations(
    ghost regs: map<nat, Declaration>, ghost findings: seq<Finding>,
    list: seq<(nat, Declaration)>, byDeclaration: map<Declaration, Finding>)
    returns (diagnostics: seq<Diagnostic>, registered: set<Finding>)
    requires Enumerates(list, regs)
    requires forall d :: (if d in byDeclaration then Some(byDeclaration[d]) else None) == LastRegistrable(findings, d)
    ensures forall f :: f in registered <==> Exempted(regs, findings, f)
    ensures forall d :: d in diagnostics <==> RegistrationDeserved(regs, findings, d)
  {
    var counts := Tally(Declarations(list));
    diagnostics, registered := [], {};
    for m := 0 to |list|
      invariant forall f :: f in registered <==> ExemptedBefore(regs, findings, list, m, f)
      invariant forall d :: d in diagnostics <==> DeservedBefore(regs, findings, list, m, d)
    {
      var (i, d) := list[m];
      CountedOnceIffClaims(list, regs, m);
      forall f { OneMoreExempted(regs, findings, list, m, f); }
      forall d { OneMoreDeserved(regs, findings, list, m, d); }
      if d in counts && counts[d] > 1 {
        diagnostics := diagnostics + [DuplicateRegistration(i, d)];
      } else if d !in byDeclaration {
        diagnostics := diagnostics + [NoSuchDeclaration(i, d)];
      } else {
        registered := registered + {byDeclaration[d]};
      }
    }
    forall f { ExemptedSomewhere(regs, findings, list, f); }
    forall d { DeservedSomewhere(regs, findings, list, d); }
  }

  lemma ExemptedSomewhere(regs: map<nat, Declaration>, findings: seq<Finding>, list: seq<(nat, Declaration)>,
      f: Finding)
    requires Enumerates(list, regs)
    ensures ExemptedBefore(regs, findings, list, |list|, f) <==> Exempted(regs, findings, f)
  {
    if p :| 0 <= p < |list| && ExemptedAt(regs, findings, list[p], f) {
      LastIsRegistrable(findings, list[p].1);
      assert ExemptedBy(regs, findings, list[p].0, f);
    }
    if i :| i in regs && ExemptedBy(regs, findings, i, f) {
      assert (i, regs[i]) in list;
      var p :| 0 <= p < |list| && list[p] == (i, regs[i]);
      assert ExemptedAt(regs, findings, list[p], f);
    }
  }

  lemma DeservedSomewhere(regs: map<nat, Declaration>, findings: seq<Finding>, list: seq<(nat, Declaration)>,
      d: Diagnostic)
    requires Enumerates(list, regs)
    ensures DeservedBefore(regs, findings, list, |list|, d) <==> RegistrationDeserved(regs, findings, d)
  {
    if RegistrationDeserved(regs, findings, d) {
      assert (d.entry, regs[d.entry]) in list;
      var p :| 0 <= p < |list| && list[p] == (d.entry, regs[d.entry]);
      assert DeservedAt(regs, findings, list[p], d);
    }
  }

  /** Validation reports exactly what the ledger deserves and exempts exactly the findings that one
      clean entry alone claims. */
  method ValidateLedger(data: Json, repo: Repository, findings: seq<Finding>)
    returns (diagnostics: seq<Diagnostic>, registered: set<Finding>)
    ensures Entries(data).None? ==> diagnostics == [BadLedger] && registered == {}
    ensures Entries(data).Some? ==>
              && (forall d :: d in diagnostics <==> Deserved(Entries(data).value, repo, findings, d))
              && (forall f :: f in registered <==> Exempted(Registers(Entries(data).value, repo), findings, f))
  {
    if Entries(data).None? {
      return [BadLedger], {};
    }
    var entries := Entries(data).value;
    var entryDiagnostics, list := CheckEntries(entries, repo);
    var findingDiagnostics, byDeclaration := IndexFindings(findings);
    RegistrationsEnumerate(entries, repo);
    var matchDiagnostics;
    matchDiagnostics, registered := MatchRegistrations(Registers(entries, repo), findings, list, byDeclaration);
    diagnostics := entryDiagnostics + findingDiagnostics + matchDiagnostics;
  }

  // ----- What an entry in order is

  /** Characters of identifiers, by code point: lower-case letters and digits. */
  lemma AlphanumericIff(c: char)
    ensures Alphanumeric(c) <==> 97 <= c as int <= 122 || 48 <= c as int <= 57
  {}

  /** Exactly one of the two fields is present. */
  predicate OneField(fields: map<string, Json>, a: string, b: string) {
    (a in fields && b !in fields) || (a !in fields && b in fields)
  }

  predicate ReadableDate(fields: map<string, Json>, name: string, repo: Repository) {
    name in fields && fields[name].Text? && repo.date(fields[name].s).Some?
  }

  function Day(fields: map<string, Json>, name: string, repo: Repository): int
    requires ReadableDate(fields, name, repo)
  {
    repo.date(fields[name].s).value
  }

  /** A version of Semantic Versioning 2.0.0. */
  ghost predicate VersionText(fields: map<string, Json>, name: string) {
    name in fields && fields[name].Text? && Accepts(Semver.SEMVER, fields[name].s)
  }

  lemma VersionTextIff(fields: map<string, Json>, name: string)
    requires name in fields && fields[name].Text?
    ensures Semver.Matches(fields[name].s) <==> VersionText(fields, name)
  {
    Semver.PatternIsTheGrammar(fields[name].s);
  }

  /** An entry is removed by a date not before today, or by a version. */
  lemma RemovalIssueIff(fields: map<string, Json>, repo: Repository)
    ensures var issue, once := RemovalIssue(fields, repo),
                             OneField(fields, "target_removal_date", "target_removal_version");
            && (issue == Some(RemovedOnce) <==> !once)
            && (issue == Some(BadRemovalDate) <==>
                  once && "target_removal_date" in fields && !ReadableDate(fields, "target_removal_date", repo))
            && (issue == Some(Expired) <==>
                  once && ReadableDate(fields, "target_removal_date", repo)
                  && Day(fields, "target_removal_date", repo) < repo.today)
            && (issue == Some(BadRemovalVersion) <==>
                  once && "target_removal_version" in fields && !VersionText(fields, "target_removal_version"))
            && (issue.None? <==>
                  once
                  && ("target_removal_date" in fields ==>
                        ReadableDate(fields, "target_removal_date", repo)
                        && repo.today <= Day(fields, "target_removal_date", repo))
                  && ("target_removal_version" in fields ==> VersionText(fields, "target_removal_version")))
  {
    if "target_removal_version" in fields && fields["target_removal_version"].Text? {
      VersionTextIff(fields, "target_removal_version");
    }
  }

  /** An entry was introduced on a date not after today, or in a version. */
  lemma IntroductionIssueIff(fields: map<string, Json>, repo: Repository)
    ensures var issue, once := IntroductionIssue(fields, repo),
                             OneField(fields, "introduced_on", "introduced_version");
            && (issue == Some(IntroducedOnce) <==> !once)
            && (issue == Some(BadIntroducedDate) <==>
                  once && "introduced_on" in fields && !ReadableDate(fields, "introduced_on", repo))
            && (issue == Some(IntroducedInFuture) <==>
                  once && ReadableDate(fields, "introduced_on", repo)
                  && Day(fields, "introduced_on", repo) > repo.today)
            && (issue == Some(BadIntroducedVersion) <==>
                  once && "introduced_version" in fields && !VersionText(fields, "introduced_version"))
            && (issue.None? <==>
                  once
                  && ("introduced_on" in fields ==>
                        ReadableDate(fields, "introduced_on", repo)
                        && Day(fields, "introduced_on", repo) <= repo.today)
                  && ("introduced_version" in fields ==> VersionText(fields, "introduced_version")))
  {
    if "introduced_version" in fields && fields["introduced_version"].Text? {
      VersionTextIff(fields, "introduced_version");
    }
  }

  predicate Filled(fields: map<string, Json>, name: string) {
    name in fields && fields[name].Text? && fields[name].s != ""
  }

  /** Some character of the text is not a space. */
  predicate Nonblank(fields: map<string, Json>, name: string) {
    && name in fields && fields[name].Text?
    && exists i | 0 <= i < |fields[name].s| :: !PythonText.IsSpace(fields[name].s[i])
  }

  /** The file holds the marker. */
  ghost predicate Holds(repo: Repository, path: string, marker: string) {
    path in repo.sources && exists a, b :: repo.sources[path] == a + marker + b
  }

  /** A locator names a tracked file that still holds its marker, and any declaration it names is not
      blank; the first of these that fails is reported. */
  lemma LocatorIssueIff(fields: map<string, Json>, repo: Repository)
    ensures var issue := LocatorIssue(fields, repo);
            if "locator" !in fields || !fields["locator"].Object? then issue == Some(NoLocator)
            else
              var l := fields["locator"].fields;
              if !Filled(l, "path") then issue == Some(NoLocatorPath)
              else if !Filled(l, "marker") then issue == Some(NoLocatorMarker)
              else if "declaration" in l && !Nonblank(l, "declaration") then issue == Some(EmptyDeclaration)
              else if l["path"].s !in repo.sources then issue == Some(Untracked)
              else if !Holds(repo, l["path"].s, l["marker"].s) then issue == Some(MarkerGone)
              else issue.None?
  {
    if "locator" in fields && fields["locator"].Object? {
      var l := fields["locator"].fields;
      if Filled(l, "path") && Filled(l, "marker") && l["path"].s in repo.sources {
        PythonText.ContainsIff(repo.sources[l["path"].s], l["marker"].s);
      }
    }
  }

  /** A ledger entry in order, spelled out on its fields. */
  ghost predicate EntryInOrder(fields: map<string, Json>, repo: Repository) {
    && "id" in fields && fields["id"].Text? && Accepts(STABLE_ID, fields["id"].s)
    && Nonblank(fields, "reason") && Nonblank(fields, "owner") && Nonblank(fields, "removal_condition")
    && OneField(fields, "introduced_on", "introduced_version")
    && ("introduced_on" in fields ==>
          ReadableDate(fields, "introduced_on", repo) && Day(fields, "introduced_on", repo) <= repo.today)
    && ("introduced_version" in fields ==> VersionText(fields, "introduced_version"))
    && OneField(fields, "target_removal_date", "target_removal_version")
    && ("target_removal_date" in fields ==>
          ReadableDate(fields, "target_removal_date", repo) && repo.today <= Day(fields, "target_removal_date", repo))
    && ("target_removal_version" in fields ==> VersionText(fields, "target_removal_version"))
    && "locator" in fields && fields["locator"].Object?
    && var l := fields["locator"].fields;
       && Filled(l, "path") && Filled(l, "marker") && Holds(repo, l["path"].s, l["marker"].s)
       && ("declaration" in l ==> Nonblank(l, "declaration"))
  }

  lemma RequiredTexts(fields: map<string, Json>)
    ensures (forall name | name in REQUIRED :: HasText(fields, name)) <==>
            Nonblank(fields, "reason") && Nonblank(fields, "owner") && Nonblank(fields, "removal_condition")
  {
    assert forall name | name in REQUIRED :: name in {"reason", "owner", "removal_condition"};
    assert REQUIRED[0] in REQUIRED && REQUIRED[1] in REQUIRED && REQUIRED[2] in REQUIRED;
    assert forall name :: HasText(fields, name) <==> Nonblank(fields, name);
  }

  lemma LocatorInOrderIff(fields: map<string, Json>, repo: Repository)
    ensures LocatorIssue(fields, repo).None? <==>
            && "locator" in fields && fields["locator"].Object?
            && var l := fields["locator"].fields;
               && Filled(l, "path") && Filled(l, "marker") && Holds(repo, l["path"].s, l["marker"].s)
               && ("declaration" in l ==> Nonblank(l, "declaration"))
  {
    LocatorIssueIff(fields, repo);
  }

  /** An entry is clean exactly when it is in order and no other entry has its id. */
  lemma CleanMeans(entries: seq<Json>, repo: Repository, i: nat)
    requires i < |entries|
    ensures Clean(entries, repo, i) <==>
            && entries[i].Object? && EntryInOrder(entries[i].fields, repo)
            && forall j | 0 <= j < |entries| && j != i :: !SameId(entries[j], entries[i])
  {
    if entries[i].Object? {
      var fields := entries[i].fields;
      RequiredTexts(fields);
      IntroductionIssueIff(fields, repo);
      RemovalIssueIff(fields, repo);
      LocatorInOrderIff(fields, repo);
      if IdOf(entries[i]).Some? {
        StableIdIff(IdOf(entries[i]).value);
        OwnIdIff(entries, i);
      }
    }
  }

  lemma OwnIdIff(entries: seq<Json>, i: nat)
    requires i < |entries| && IdOf(entries[i]).Some?
    ensures (forall j | 0 <= j < |entries| && j != i :: IdOf(entries[j]) != IdOf(entries[i])) <==>
            (forall j | 0 <= j < |entries| && j != i :: !SameId(entries[j], entries[i]))
  {
    assert forall j | 0 <= j < |entries| :: SameId(entries[j], entries[i]) <==> IdOf(entries[j]) == IdOf(entries[i]);
  }

  predicate SameId(a: Json, b: Json) {
    && a.Object? && b.Object? && "id" in a.fields && "id" in b.fields
    && a.fields["id"].Text? && a.fields["id"] == b.fields["id"]
  }

  // ----- What an entry registers

  /** The entry's locator names this declaration, in this file, with this marker. */
  predicate Names(entry: Json, d: Declaration) {
    && entry.Object? && "locator" in entry.fields && entry.fields["locator"].Object?
    && var l := entry.fields["locator"].fields;
       && Filled(l, "path") && l["path"].s == d.path
       && Filled(l, "declaration") && l["declaration"].s == d.name
       && Filled(l, "marker") && l["marker"].s == d.marker
  }

  lemma RegistrationIff(entry: Json, d: Declaration)
    ensures Registration(entry) == Some(d) <==> Names(entry, d)
  {}

  /** A finding about this declaration, in this file, with this marker. */
  predicate About(f: Finding, d: Declaration) {
    && f.path == d.path
    && "declaration" in f.identity && f.identity["declaration"] == Text(d.name)
    && "marker" in f.identity && f.identity["marker"] == Text(d.marker)
  }

  lemma DeclaredIff(f: Finding, d: Declaration)
    ensures Declared(f) == Some(d) <==> About(f, d)
    ensures Ambiguous(f) <==> "ambiguous" in f.identity && f.identity["ambiguous"] == Bool(true)
  {}

  /** The finding at position `p` is the last unambiguous one about `d`. */
  ghost predicate LastAbout(findings: seq<Finding>, p: nat, d: Declaration)
    requires p < |findings|
  {
    && About(findings[p], d) && !Ambiguous(findings[p])
    && forall q | p < q < |findings| :: About(findings[q], d) ==> Ambiguous(findings[q])
  }

  lemma {:induction false} LastAboutIff(findings: seq<Finding>, d: Declaration, f: Finding)
    ensures LastRegistrable(findings, d) == Some(f) <==>
            exists p | 0 <= p < |findings| :: LastAbout(findings, p, d) && findings[p] == f
  {
    if findings != [] {
      var n := |findings| - 1;
      var init := findings[..n];
      LastAboutIff(init, d, f);
      DeclaredIff(findings[n], d);
      if Registrable(findings[n], d) {
        assert LastAbout(findings, n, d);
      } else {
        forall p | 0 <= p < n ensures LastAbout(init, p, d) <==> LastAbout(findings, p, d) {
          LastAboutGrows(findings, p, d);
        }
      }
    }
  }

  lemma LastAboutGrows(findings: seq<Finding>, p: nat, d: Declaration)
    requires p < |findings| - 1 && !Registrable(findings[|findings| - 1], d)
    ensures LastAbout(findings[..|findings| - 1], p, d) <==> LastAbout(findings, p, d)
  {
    var n := |findings| - 1;
    DeclaredIff(findings[n], d);
    assert forall q | 0 <= q < n :: findings[..n][q] == findings[q];
  }

  /** A finding is exempted exactly when it is the last unambiguous one about a declaration that one
      entry in order, with an id of its own, names and no other such entry does. */
  lemma ExemptedIff(entries: seq<Json>, repo: Repository, findings: seq<Finding>, f: Finding)
    ensures Exempted(Registers(entries, repo), findings, f) <==>
            exists i, d, p :: ExemptsSpelled(entries, repo, findings, f, i, d, p)
  {
    var regs := Registers(entries, repo);
    if i :| i in regs && ExemptedBy(regs, findings, i, f) {
      var d := Declared(f).value;
      ClaimsIff(entries, repo, i, d);
      LastAboutIff(findings, d, f);
      var p: nat :| p < |findings| && LastAbout(findings, p, d) && findings[p] == f;
      assert ExemptsSpelled(entries, repo, findings, f, i, d, p);
    }
    if i: nat, d, p: nat :| ExemptsSpelled(entries, repo, findings, f, i, d, p) {
      ClaimsIff(entries, repo, i, d);
      LastAboutIff(findings, d, f);
      DeclaredIff(f, d);
      assert ExemptedBy(regs, findings, i, f);
    }
  }

  ghost predicate ExemptsSpelled(
    entries: seq<Json>, repo: Repository, findings: seq<Finding>, f: Finding, i: nat, d: Declaration, p: nat)
  {
    && ClaimsAlone(entries, repo, i, d)
    && p < |findings| && LastAbout(findings, p, d) && findings[p] == f
  }

  /** Entry `i` is clean and names `d`, and no other clean entry does. */
  ghost predicate ClaimsAlone(entries: seq<Json>, repo: Repository, i: nat, d: Declaration) {
    && i < |entries| && Clean(entries, repo, i) && Names(entries[i], d)
    && forall j: nat | j < |entries| && j != i && Clean(entries, repo, j) :: !Names(entries[j], d)
  }

  lemma ClaimsIff(entries: seq<Json>, repo: Repository, i: nat, d: Declaration)
    ensures Claims(Registers(entries, repo), i, d) <==> ClaimsAlone(entries, repo, i, d)
  {
    var regs := Registers(entries, repo);
    forall j: nat | j < |entries|
      ensures j in regs && regs[j] == d <==> Clean(entries, repo, j) && Names(entries[j], d)
    {
      RegistrationIff(entries[j], d);
    }
  }

  /** A ledger file is read exactly when it has version 1 and a list of entries. */
  lemma EntriesIff(data: Json, entries: seq<Json>)
    ensures Entries(data) == Some(entries) <==>
            && data.Object? && "version" in data.fields && data.fields["version"] in {Number(1), Bool(true)}
            && "entries" in data.fields && data.fields["entries"] == List(entries)
  {}

  /** Reports drop the last hash sign and what follows it. */
  lemma UndistinguishedIs(d: Declaration, base: string, number: string)
    requires '#' !in number
    ensures d.name == base + "#" + number ==> Undistinguished(d) == d.(name := base)
    ensures '#' !in d.name ==> Undistinguished(d) == d
  {
    if d.name == base + "#" + number {
      assert d.name[|base|] == '#';
      assert forall i | |base| < i < |d.name| :: d.name[i] == number[i - |base| - 1];
      assert LastIndex(d.name, '#') == |base|;
      assert d.name[..|base|] == base;
    }
  }

  // ----- What the law means

  lemma NoEntryIssueIffClean(entries: seq<Json>, repo: Repository, findings: seq<Finding>, i: nat)
    requires i < |entries|
    ensures Clean(entries, repo, i) <==> forall issue :: !Deserved(entries, repo, findings, EntryIssue(i, issue))
  {
    CleanIff(entries, repo, i);
    var issues := EntryIssues(entries, repo, i);
    if issues != [] {
      assert Deserved(entries, repo, findings, EntryIssue(i, issues[0]));
    }
  }

  lemma NoRegistrationIssueIffMatched(regs: map<nat, Declaration>, findings: seq<Finding>)
    ensures Matched(regs, findings) <==> forall d :: !RegistrationDeserved(regs, findings, d)
  {
    if forall d :: !RegistrationDeserved(regs, findings, d) {
      forall i | i in regs ensures Claims(regs, i, regs[i]) && LastRegistrable(findings, regs[i]).Some? {
        assert !RegistrationDeserved(regs, findings, DuplicateRegistration(i, regs[i]));
        assert !RegistrationDeserved(regs, findings, NoSuchDeclaration(i, regs[i]));
      }
    }
  }

  lemma AmbiguousIsDeserved(findings: seq<Finding>, f: Finding)
    requires f in findings && Ambiguous(f) && Declared(f).Some?
    ensures AmbiguityDeserved(findings, Undistinguished(Declared(f).value))
  {}

  lemma InOrderDeservesNothing(entries: seq<Json>, repo: Repository, findings: seq<Finding>, d: Diagnostic)
    requires InOrder(entries, repo, findings)
    ensures !Deserved(entries, repo, findings, d)
  {
    NoRegistrationIssueIffMatched(Registers(entries, repo), findings);
    if d.EntryIssue? && d.entry < |entries| {
      CleanIff(entries, repo, d.entry);
    }
  }

  /** A ledger deserves no diagnostic exactly when it is in order. */
  lemma NothingDeservedIffInOrder(entries: seq<Json>, repo: Repository, findings: seq<Finding>)
    ensures (forall d :: !Deserved(entries, repo, findings, d)) <==> InOrder(entries, repo, findings)
  {
    var regs := Registers(entries, repo);
    NoRegistrationIssueIffMatched(regs, findings);
    if InOrder(entries, repo, findings) {
      forall d ensures !Deserved(entries, repo, findings, d) {
        InOrderDeservesNothing(entries, repo, findings, d);
      }
    }
    if forall d :: !Deserved(entries, repo, findings, d) {
      forall i | 0 <= i < |entries| ensures Clean(entries, repo, i) {
        NoEntryIssueIffClean(entries, repo, findings, i);
      }
      forall decl ensures !AmbiguityDeserved(findings, decl) {
        assert !Deserved(entries, repo, findings, AmbiguousDeclaration(decl));
      }
      forall f | f in findings && Ambiguous(f) ensures Declared(f).None? {
        if Declared(f).Some? {
          AmbiguousIsDeserved(findings, f);
        }
      }
      forall d ensures !RegistrationDeserved(regs, findings, d) {
        assert !Deserved(entries, repo, findings, d);
      }
    }
  }

  /** Exemption is exact: it takes one clean entry with a unique id and an undisputed registration,
      never an ambiguous finding, and distinct entries exempt distinct findings. */
  lemma ExemptionIsExact(
    entries: seq<Json>, repo: Repository, findings: seq<Finding>, i: nat, j: nat, f: Finding, g: Finding)
    requires ExemptedBy(Registers(entries, repo), findings, i, f)
    requires ExemptedBy(Registers(entries, repo), findings, j, g)
    ensures f in findings && !Ambiguous(f)
    ensures i < |entries| && Registration(entries[i]) == Declared(f) && EntryIssues(entries, repo, i) == []
    ensures forall k | 0 <= k < |entries| && k != i :: IdOf(entries[k]) != IdOf(entries[i])
    ensures i == j <==> f == g
  {
    CleanIff(entries, repo, i);
    LastIsRegistrable(findings, Declared(f).value);
    LastIsRegistrable(findings, Declared(g).value);
  }
}
