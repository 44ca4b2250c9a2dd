/** Per-rule baselines: what a lint run reports against them, and what a clean history guarantees. */
module BaselineRatchet {
  import opened Wrappers
  import opened ArchitectureModel
  import opened CompatibilityLedger

  datatype Report =
    | NewFinding(finding: Finding)
    | StaleEntry(rule: string, identity: Identity)
    | GrownEntry(rule: string, identity: Identity)
    | LedgerReport(diagnostic: Diagnostic)

  /** `data` is a baseline file of `rule` with these entries. */
  ghost predicate IsBaseline(data: Json, rule: string, entries: seq<Identity>) {
    && data.Object? && VersionOne(Field(data.fields, "version")) && Field(data.fields, "rule") == Text(rule)
    && Field(data.fields, "entries") == List(Objects(entries))
    && forall i, j | 0 <= i < j < |entries| :: entries[i] != entries[j]
  }

  ghost function Objects(entries: seq<Identity>): seq<Json> {
    seq(|entries|, i requires 0 <= i < |entries| => Object(entries[i]))
  }

  /** The entries of a baseline file, or nothing when the tool stops with a configuration error. */
  function ValidBaseline(data: Json, rule: string): (r: Option<seq<Identity>>)
    ensures r.Some? ==> IsBaseline(data, rule, r.value)
    ensures r.None? ==> forall entries :: !IsBaseline(data, rule, entries)
  {
    match data
    case Object(fields) =>
      (match (VersionOne(Field(fields, "version")), Field(fields, "rule") == Text(rule), Field(fields, "entries"))
       case (true, true, List(items)) =>
         if (forall i | 0 <= i < |items| :: items[i].Object?)
            && (forall i, j | 0 <= i < j < |items| :: items[i] != items[j])
         then
           var entries := seq(|items|, i requires 0 <= i < |items| && items[i].Object? => items[i].fields);
           assert items == Objects(entries);
           assert forall i, j | 0 <= i < j < |items| :: items[i] != items[j] && entries[i] == items[i].fields;
           Some(entries)
         else
           assert forall entries :: IsBaseline(data, rule, entries) ==>
               items == Objects(entries) && |items| == |entries|;
           assert forall entries, i | 0 <= i < |items| && IsBaseline(data, rule, entries) ::
               items[i] == Object(entries[i]);
           None
       case _ => None)
    case _ => None
  }

  ghost function Keys(entries: seq<Identity>): set<Identity> {
    set k | k in entries
  }

  ghost function Identities(findings: seq<Finding>, rule: string): set<Identity> {
    set f | f in findings && f.rule == rule :: f.identity
  }

  /** The last finding with a rule and identity: the one that is reported. */
  function LastWith(findings: seq<Finding>, rule: string, identity: Identity): Option<Finding> {
    if findings == [] then None
    else
      var f := findings[|findings| - 1];
      if f.rule == rule && f.identity == identity then Some(f)
      else LastWith(findings[..|findings| - 1], rule, identity)
  }

  lemma {:induction false} LastWithIff(findings: seq<Finding>, rule: string, identity: Identity)
    ensures LastWith(findings, rule, identity).Some? <==> identity in Identities(findings, rule)
    ensures LastWith(findings, rule, identity).Some? ==>
              var f := LastWith(findings, rule, identity).value;
              f in findings && f.rule == rule && f.identity == identity
  {
    if findings != [] {
      var rest := findings[..|findings| - 1];
      LastWithIff(rest, rule, identity);
      assert findings == rest + [findings[|findings| - 1]];
    }
  }

  /** The finding at the last position with this rule and identity. */
  lemma {:induction false} LastWithIs(findings: seq<Finding>, rule: string, identity: Identity, p: nat)
    requires p < |findings| && findings[p].rule == rule && findings[p].identity == identity
    requires forall q | p < q < |findings| :: !(findings[q].rule == rule && findings[q].identity == identity)
    ensures LastWith(findings, rule, identity) == Some(findings[p])
  {
    if p < |findings| - 1 {
      LastWithIs(findings[..|findings| - 1], rule, identity, p);
    }
  }

  // ----- Against the current baselines

  ghost predicate BaselineDeserved(
    findings: seq<Finding>, baselines: map<string, seq<Identity>>, rules: seq<string>, r: Report)
    requires forall rule | rule in rules :: rule in baselines
  {
    match r
    case NewFinding(f) =>
      f.rule in rules && f.identity !in baselines[f.rule] && LastWith(findings, f.rule, f.identity) == Some(f)
    case StaleEntry(rule, identity) =>
      rule in rules && identity in baselines[rule] && identity !in Identities(findings, rule)
    case _ => false
  }

  method ActualByRule(findings: seq<Finding>, rules: seq<string>)
    returns (actual: map<string, map<Identity, Finding>>)
    requires forall f | f in findings :: f.rule in rules
    ensures forall rule | rule in rules :: rule in actual
    ensures forall rule, identity | rule in rules ::
              (if identity in actual[rule] then Some(actual[rule][identity]) else None) ==
                  LastWith(findings, rule, identity)
  {
    actual := map rule | rule in rules :: map[];
    for k := 0 to |findings|
      invariant forall rule | rule in rules :: rule in actual
      invariant forall rule, identity | rule in rules ::
                  (if identity in actual[rule] then Some(actual[rule][identity]) else None)
                  == LastWith(findings[..k], rule, identity)
    {
      var f := findings[k];
      assert findings[..k + 1][..k] == findings[..k];
      actual := actual[f.rule := actual[f.rule][f.identity := f]];
    }
    assert findings[..|findings|] == findings;
  }

  /** The reports of one rule. */
  ghost predicate RuleDeserved(
    findings: seq<Finding>, baseline: seq<Identity>, rule: string, r: Report)
  {
    match r
    case NewFinding(f) =>
      f.rule == rule && f.identity !in baseline && LastWith(findings, rule, f.identity) == Some(f)
    case StaleEntry(x, identity) => x == rule && identity in baseline && identity !in Identities(findings, rule)
    case _ => false
  }

  method RuleDiagnostics(
    ghost findings: seq<Finding>, actual: map<Identity, Finding>, baseline: seq<Identity>, rule: string)
    returns (reports: seq<Report>)
    requires forall identity ::
               (if identity in actual then Some(actual[identity]) else None) == LastWith(findings, rule, identity)
    ensures forall r :: r in reports <==> RuleDeserved(findings, baseline, rule, r)
  {
    var expected := set k | k in baseline;
    var unlisted := actual.Keys - expected;
    var stale := expected - actual.Keys;
    reports := [];
    var todo := unlisted;
    while todo != {}
      invariant todo <= unlisted
      invariant forall r :: r in reports <==> r.NewFinding? && exists k | k in unlisted - todo :: r.finding == actual[k]
    {
      var key :| key in todo;
      todo := todo - {key};
      reports := reports + [NewFinding(actual[key])];
    }
    todo := stale;
    while todo != {}
      invariant todo <= stale
      invariant forall r :: r in reports <==>
                  || (r.NewFinding? && exists k | k in unlisted :: r.finding == actual[k])
                  || (r.StaleEntry? && r.rule == rule && r.identity in stale - todo)
    {
      var key :| key in todo;
      todo := todo - {key};
      reports := reports + [StaleEntry(rule, key)];
    }
    forall r ensures r in reports <==> RuleDeserved(findings, baseline, rule, r) {
      ReportsAreDeserved(findings, actual, baseline, rule, r);
    }
  }

  lemma ReportsAreDeserved(
    findings: seq<Finding>, actual: map<Identity, Finding>, baseline: seq<Identity>, rule: string, r: Report)
    requires forall identity ::
               (if identity in actual then Some(actual[identity]) else None) == LastWith(findings, rule, identity)
    ensures RuleDeserved(findings, baseline, rule, r) <==>
            || (r.NewFinding? && exists k | k in actual.Keys - Keys(baseline) :: r.finding == actual[k])
            || (r.StaleEntry? && r.rule == rule && r.identity in Keys(baseline) - actual.Keys)
  {
    if r.NewFinding? {
      LastWithIff(findings, rule, r.finding.identity);
      if k :| k in actual.Keys - Keys(baseline) && r.finding == actual[k] {
        LastWithIff(findings, rule, k);
      }
      if RuleDeserved(findings, baseline, rule, r) {
        assert r.finding.identity in actual.Keys - Keys(baseline);
      }
    } else if r.StaleEntry? {
      LastWithIff(findings, rule, r.identity);
    }
  }

  method BaselineDiagnostics(findings: seq<Finding>, baselines: map<string, seq<Identity>>, rules: seq<string>)
    returns (reports: seq<Report>)
    requires forall f | f in findings :: f.rule in rules
    requires forall rule | rule in rules :: rule in baselines
    ensures forall r :: r in reports <==> BaselineDeserved(findings, baselines, rules, r)
  {
    var actual := ActualByRule(findings, rules);
    reports := [];
    for k := 0 to |rules|
      invariant forall r :: r in reports <==>
                  exists m | 0 <= m < k :: RuleDeserved(findings, baselines[rules[m]], rules[m], r)
    {
      var more := RuleDiagnostics(findings, actual[rules[k]], baselines[rules[k]], rules[k]);
      reports := reports + more;
    }
    forall r ensures r in reports <==> BaselineDeserved(findings, baselines, rules, r) {
      if BaselineDeserved(findings, baselines, rules, r) {
        var rule := if r.NewFinding? then r.finding.rule else r.rule;
        var m :| 0 <= m < |rules| && rules[m] == rule;
        assert RuleDeserved(findings, baselines[rules[m]], rules[m], r);
      }
    }
  }

  // ----- Against the base commit's baselines

  /** The base commit's baselines; a rule may have none there when the tool was told to allow it. */
  type Base = map<string, Option<seq<Identity>>>

  ghost predicate GrowthDeserved(current: map<string, seq<Identity>>, base: Base, rules: seq<string>, r: Report)
    requires forall rule | rule in rules :: rule in current && rule in base
  {
    && r.GrownEntry? && r.rule in rules && base[r.rule].Some?
    && r.identity in current[r.rule] && r.identity !in base[r.rule].value
  }

  method GrowthDiagnostics(current: map<string, seq<Identity>>, base: Base, rules: seq<string>)
    returns (reports: seq<Report>)
    requires forall rule | rule in rules :: rule in current && rule in base
    ensures forall r :: r in reports <==> GrowthDeserved(current, base, rules, r)
  {
    reports := [];
    for k := 0 to |rules|
      invariant forall r :: r in reports <==> GrowthDeserved(current, base, rules[..k], r)
    {
      var rule := rules[k];
      assert rules[..k + 1] == rules[..k] + [rule];
      if base[rule].None? {
        continue;
      }
      var added := (set e | e in current[rule]) - (set e | e in base[rule].value);
      var todo := added;
      while todo != {}
        invariant todo <= added
        invariant forall r :: r in reports <==>
                    || GrowthDeserved(current, base, rules[..k], r)
                    || (r.GrownEntry? && r.rule == rule && r.identity in added - todo)
      {
        var key :| key in todo;
        todo := todo - {key};
        reports := reports + [GrownEntry(rule, key)];
      }
    }
    assert rules[..|rules|] == rules;
  }

  // ----- A lint run

  /** Baseline files by rule; a rule may have none. */
  type Files = map<string, Json>

  /** Everything one run of the tool reads of the working tree. */
  datatype Commit = Commit(
    rules: seq<string>, files: Files, findings: seq<Finding>, ledger: Json, repo: Repository)
  {
    function Baselines(): map<string, seq<Identity>> {
      map rule | rule in rules && rule in files && ValidBaseline(files[rule], rule).Some? ::
        ValidBaseline(files[rule], rule).value
    }

    /** Rules find only what is theirs. */
    predicate Scanned() {
      forall f | f in findings :: f.rule in rules
    }

    /** Every rule has a valid baseline. */
    predicate Loaded() {
      Scanned() && forall rule | rule in rules :: rule in Baselines()
    }

    ghost function Registers(): map<nat, Declaration>
      requires Entries(ledger).Some?
    {
      CompatibilityLedger.Registers(Entries(ledger).value, repo)
    }

    /** The finding identities of `rule` that no ledger entry exempts. */
    ghost function Unregistered(rule: string): set<Identity>
      requires Entries(ledger).Some?
    {
      set f | f in findings && !Exempted(Registers(), findings, f) && f.rule == rule :: f.identity
    }
  }

  ghost predicate BaseFor(c: Commit, base: Option<Base>) {
    base.Some? ==> forall rule | rule in c.rules :: rule in base.value
  }

  /** No baseline that exists in the base commit has grown. */
  ghost predicate Shrunk(c: Commit, base: Option<Base>)
    requires c.Loaded() && BaseFor(c, base)
  {
    base.Some? ==> forall rule | rule in c.rules && base.value[rule].Some? ::
                     Keys(c.Baselines()[rule]) <= Keys(base.value[rule].value)
  }

  ghost predicate LintsClean(c: Commit, base: Option<Base>)
    requires c.Loaded() && BaseFor(c, base)
  {
    && Entries(c.ledger).Some?
    && InOrder(Entries(c.ledger).value, c.repo, c.findings)
    && (forall rule | rule in c.rules :: c.Unregistered(rule) == Keys(c.Baselines()[rule]))
    && Shrunk(c, base)
  }

  /** The findings outside `registered`, in their order. */
  function Without(findings: seq<Finding>, registered: set<Finding>): seq<Finding> {
    if findings == [] then []
    else
      var n := |findings| - 1;
      Without(findings[..n], registered) + (if findings[n] in registered then [] else [findings[n]])
  }

  lemma {:induction false} WithoutHas(findings: seq<Finding>, registered: set<Finding>)
    ensures forall f :: f in Without(findings, registered) <==> f in findings && f !in registered
  {
    if findings != [] {
      var n := |findings| - 1;
      WithoutHas(findings[..n], registered);
      assert findings == findings[..n] + [findings[n]];
    }
  }

  method Filter(findings: seq<Finding>, registered: set<Finding>) returns (kept: seq<Finding>)
    ensures kept == Without(findings, registered)
  {
    kept := [];
    for k := 0 to |findings|
      invariant kept == Without(findings[..k], registered)
    {
      assert findings[..k + 1][..k] == findings[..k];
      if findings[k] !in registered {
        kept := kept + [findings[k]];
      }
    }
    assert findings[..|findings|] == findings;
  }

  function LedgerReports(diagnostics: seq<Diagnostic>): seq<Report> {
    seq(|diagnostics|, i requires 0 <= i < |diagnostics| => LedgerReport(diagnostics[i]))
  }

  ghost function ExemptedFindings(c: Commit): set<Finding> {
    if Entries(c.ledger).None? then {} else set f | f in c.findings && Exempted(c.Registers(), c.findings, f)
  }

  /** Exactly the reports a run deserves: about the ledger, about findings that it does not exempt
      against the baselines, and about baselines that have grown. */
  ghost predicate LintDeserves(c: Commit, base: Option<Base>, r: Report)
    requires c.Loaded() && BaseFor(c, base)
  {
    match r
    case LedgerReport(d) =>
      if Entries(c.ledger).None? then d == BadLedger else Deserved(Entries(c.ledger).value, c.repo, c.findings, d)
    case GrownEntry(_, _) => base.Some? && GrowthDeserved(c.Baselines(), base.value, c.rules, r)
    case _ => BaselineDeserved(Without(c.findings, ExemptedFindings(c)), c.Baselines(), c.rules, r)
  }

  /** The tool reports exactly what the run deserves, and nothing exactly when findings, ledger and
      baselines balance. */
  method Lint(c: Commit, base: Option<Base>) returns (reports: seq<Report>)
    requires c.Loaded() && BaseFor(c, base)
    ensures forall r :: r in reports <==> LintDeserves(c, base, r)
    ensures reports == [] <==> LintsClean(c, base)
  {
    reports := LintReports(c, base);
    NothingDeservedIffClean(c, base);
    if reports != [] {
      assert reports[0] in reports;
    }
  }

  method LintReports(c: Commit, base: Option<Base>) returns (reports: seq<Report>)
    requires c.Loaded() && BaseFor(c, base)
    ensures forall r :: r in reports <==> LintDeserves(c, base, r)
  {
    var diagnostics, registered := ValidateLedger(c.ledger, c.repo, c.findings);
    RegisteredAre(c, registered);
    var unregistered := Filter(c.findings, registered);
    assert forall f | f in unregistered :: f.rule in c.rules by {
      WithoutHas(c.findings, registered);
    }
    var balance := BaselineDiagnostics(unregistered, c.Baselines(), c.rules);
    var growth := [];
    if base.Some? {
      growth := GrowthDiagnostics(c.Baselines(), base.value, c.rules);
    }
    reports := balance + LedgerReports(diagnostics) + growth;
    forall r ensures r in reports <==> LintDeserves(c, base, r) {
      OneReport(c, base, balance, diagnostics, growth, r);
    }
  }

  lemma OneReport(
    c: Commit, base: Option<Base>, balance: seq<Report>, diagnostics: seq<Diagnostic>, growth: seq<Report>, r: Report)
    requires c.Loaded() && BaseFor(c, base)
    requires r in balance <==> BaselineDeserved(Without(c.findings, ExemptedFindings(c)), c.Baselines(), c.rules, r)
    requires forall d :: d in diagnostics <==> LintDeserves(c, base, LedgerReport(d))
    requires r in growth <==> base.Some? && GrowthDeserved(c.Baselines(), base.value, c.rules, r)
    ensures r in balance + LedgerReports(diagnostics) + growth <==> LintDeserves(c, base, r)
  {
    LedgerReportsHave(diagnostics);
    assert r in balance + LedgerReports(diagnostics) + growth <==>
           r in balance || r in LedgerReports(diagnostics) || r in growth;
  }

  lemma LedgerReportsHave(diagnostics: seq<Diagnostic>)
    ensures forall r :: r in LedgerReports(diagnostics) <==> r.LedgerReport? && r.diagnostic in diagnostics
  {
    forall d | d in diagnostics ensures LedgerReport(d) in LedgerReports(diagnostics) {
      var i :| 0 <= i < |diagnostics| && diagnostics[i] == d;
      assert LedgerReports(diagnostics)[i] == LedgerReport(d);
    }
  }

  lemma RegisteredAre(c: Commit, registered: set<Finding>)
    requires Entries(c.ledger).None? ==> registered == {}
    requires Entries(c.ledger).Some? ==> forall f :: f in registered <==> Exempted(c.Registers(), c.findings, f)
    ensures registered == ExemptedFindings(c)
  {
    if Entries(c.ledger).Some? {
      forall f | Exempted(c.Registers(), c.findings, f) ensures f in c.findings {
        LastIsRegistrable(c.findings, Declared(f).value);
      }
    }
  }

  ghost predicate LedgerQuiet(c: Commit, base: Option<Base>)
    requires c.Loaded() && BaseFor(c, base)
  {
    forall d :: !LintDeserves(c, base, LedgerReport(d))
  }

  ghost predicate BalanceQuiet(c: Commit, base: Option<Base>)
    requires c.Loaded() && BaseFor(c, base)
  {
    forall r: Report | r.NewFinding? || r.StaleEntry? :: !LintDeserves(c, base, r)
  }

  ghost predicate GrowthQuiet(c: Commit, base: Option<Base>)
    requires c.Loaded() && BaseFor(c, base)
  {
    forall r: Report | r.GrownEntry? :: !LintDeserves(c, base, r)
  }

  lemma QuietByKind(c: Commit, base: Option<Base>)
    requires c.Loaded() && BaseFor(c, base)
    ensures (forall r :: !LintDeserves(c, base, r)) <==>
            LedgerQuiet(c, base) && BalanceQuiet(c, base) && GrowthQuiet(c, base)
  {
    if LedgerQuiet(c, base) && BalanceQuiet(c, base) && GrowthQuiet(c, base) {
      forall r ensures !LintDeserves(c, base, r) {
        if r.LedgerReport? {
          assert !LintDeserves(c, base, LedgerReport(r.diagnostic));
        }
      }
    }
  }

  /** A run deserves no report exactly when everything balances. */
  lemma NothingDeservedIffClean(c: Commit, base: Option<Base>)
    requires c.Loaded() && BaseFor(c, base)
    ensures (forall r :: !LintDeserves(c, base, r)) <==> LintsClean(c, base)
  {
    QuietByKind(c, base);
    LedgerSilentIff(c, base);
    BalanceSilentIff(c, base);
    GrowthSilentIff(c, base);
  }

  lemma BalanceSilentIff(c: Commit, base: Option<Base>)
    requires c.Loaded() && BaseFor(c, base)
    ensures Entries(c.ledger).Some? ==>
              (BalanceQuiet(c, base) <==>
               forall rule | rule in c.rules :: c.Unregistered(rule) == Keys(c.Baselines()[rule]))
  {
    var left := Without(c.findings, ExemptedFindings(c));
    assert BalanceQuiet(c, base) <==> forall r :: !BaselineDeserved(left, c.Baselines(), c.rules, r);
    BaselineSilentIff(left, c);
    if Entries(c.ledger).Some? {
      UnregisteredAre(c);
    }
  }

  lemma GrowthSilentIff(c: Commit, base: Option<Base>)
    requires c.Loaded() && BaseFor(c, base)
    ensures GrowthQuiet(c, base) <==> Shrunk(c, base)
  {
    if base.Some? {
      assert GrowthQuiet(c, base) <==> forall r :: !GrowthDeserved(c.Baselines(), base.value, c.rules, r);
      NoGrowthIffShrunk(c, base.value);
    }
  }

  /** The remaining findings have the identities that no ledger entry exempts. */
  lemma UnregisteredAre(c: Commit)
    requires Entries(c.ledger).Some?
    ensures forall rule :: c.Unregistered(rule) == Identities(Without(c.findings, ExemptedFindings(c)), rule)
  {
    WithoutHas(c.findings, ExemptedFindings(c));
  }

  /** The base commit's baseline files that exist are valid. */
  predicate Readable(files: Files, rules: seq<string>) {
    forall rule | rule in rules && rule in files :: ValidBaseline(files[rule], rule).Some?
  }

  function BaseOf(files: Files, rules: seq<string>): Base {
    map rule | rule in rules :: if rule in files then ValidBaseline(files[rule], rule) else None
  }

  /** The tool can lint: it does not stop with a configuration error. */
  ghost predicate Configured(c: Commit, base: Option<Files>, allowMissing: bool) {
    && c.Loaded()
    && (base.Some? ==>
          Readable(base.value, c.rules) && (allowMissing || forall rule | rule in c.rules :: rule in base.value))
  }

  method LoadBaselines(files: Files, rules: seq<string>) returns (loaded: bool)
    ensures loaded <==> forall rule | rule in rules :: rule in files && ValidBaseline(files[rule], rule).Some?
  {
    for k := 0 to |rules|
      invariant forall rule | rule in rules[..k] :: rule in files && ValidBaseline(files[rule], rule).Some?
    {
      if rules[k] !in files || ValidBaseline(files[rules[k]], rules[k]).None? {
        return false;
      }
      assert rules[..k + 1] == rules[..k] + [rules[k]];
    }
    assert rules[..|rules|] == rules;
    return true;
  }

  method LoadBaselinesFromRef(files: Files, rules: seq<string>, allowMissing: bool) returns (base: Option<Base>)
    ensures base.Some? <==> Readable(files, rules) && (allowMissing || forall rule | rule in rules :: rule in files)
    ensures base.Some? ==> base.value == BaseOf(files, rules)
  {
    var read: Base := map[];
    for k := 0 to |rules|
      invariant read == BaseOf(files, rules[..k])
      invariant Readable(files, rules[..k]) && (allowMissing || forall rule | rule in rules[..k] :: rule in files)
    {
      var rule := rules[k];
      assert rules[..k + 1] == rules[..k] + [rule];
      if rule !in files {
        if !allowMissing {
          return None;
        }
        read := read[rule := None];
        continue;
      }
      var valid := ValidBaseline(files[rule], rule);
      if valid.None? {
        return None;
      }
      read := read[rule := valid];
    }
    assert rules[..|rules|] == rules;
    return Some(read);
  }

  /** The whole run: a configuration error exactly when some baseline needed is missing or malformed,
      otherwise silence exactly when everything balances. */
  method Run(c: Commit, base: Option<Files>, allowMissing: bool) returns (outcome: Option<seq<Report>>)
    requires c.Scanned()
    ensures outcome.Some? <==> Configured(c, base, allowMissing)
    ensures outcome.Some? ==>
              var ceiling := if base.Some? then Some(BaseOf(base.value, c.rules)) else None;
              && (forall r :: r in outcome.value <==> LintDeserves(c, ceiling, r))
              && (outcome.value == [] <==> LintsClean(c, ceiling))
  {
    var loaded := LoadBaselines(c.files, c.rules);
    assert loaded <==> c.Loaded();
    if !loaded {
      return None;
    }
    var ceiling: Option<Base> := None;
    if base.Some? {
      ceiling := LoadBaselinesFromRef(base.value, c.rules, allowMissing);
      if ceiling.None? {
        return None;
      }
    }
    var reports := Lint(c, ceiling);
    return Some(reports);
  }

  lemma LedgerSilentIff(c: Commit, base: Option<Base>)
    requires c.Loaded() && BaseFor(c, base)
    ensures LedgerQuiet(c, base) <==>
            Entries(c.ledger).Some? && InOrder(Entries(c.ledger).value, c.repo, c.findings)
  {
    if Entries(c.ledger).None? {
      assert LintDeserves(c, base, LedgerReport(BadLedger));
    } else {
      var entries := Entries(c.ledger).value;
      NothingDeservedIffInOrder(entries, c.repo, c.findings);
      forall d ensures LintDeserves(c, base, LedgerReport(d)) <==> Deserved(entries, c.repo, c.findings, d) {}
    }
  }

  lemma BaselineSilentIff(findings: seq<Finding>, c: Commit)
    requires c.Loaded()
    ensures (forall r :: !BaselineDeserved(findings, c.Baselines(), c.rules, r)) <==>
            forall rule | rule in c.rules :: Identities(findings, rule) == Keys(c.Baselines()[rule])
  {
    if forall r :: !BaselineDeserved(findings, c.Baselines(), c.rules, r) {
      forall rule | rule in c.rules ensures Identities(findings, rule) == Keys(c.Baselines()[rule]) {
        forall k ensures k in Identities(findings, rule) <==> k in Keys(c.Baselines()[rule]) {
          LastWithIff(findings, rule, k);
          assert !BaselineDeserved(findings, c.Baselines(), c.rules, StaleEntry(rule, k));
          var last := LastWith(findings, rule, k);
          if last.Some? {
            assert !BaselineDeserved(findings, c.Baselines(), c.rules, NewFinding(last.value));
          }
        }
      }
    }
    if r :| BaselineDeserved(findings, c.Baselines(), c.rules, r) {
      var rule := if r.NewFinding? then r.finding.rule else r.rule;
      var k := if r.NewFinding? then r.finding.identity else r.identity;
      LastWithIff(findings, rule, k);
      assert k in Identities(findings, rule) <==> k !in Keys(c.Baselines()[rule]);
    }
  }

  lemma NoGrowthIffShrunk(c: Commit, base: Base)
    requires c.Loaded() && BaseFor(c, Some(base))
    ensures (forall r :: !GrowthDeserved(c.Baselines(), base, c.rules, r)) <==> Shrunk(c, Some(base))
  {
    if forall r :: !GrowthDeserved(c.Baselines(), base, c.rules, r) {
      forall rule, k | rule in c.rules && base[rule].Some? && k in Keys(c.Baselines()[rule])
        ensures k in Keys(base[rule].value)
      {
        assert !GrowthDeserved(c.Baselines(), base, c.rules, GrownEntry(rule, k));
      }
    }
    if r :| GrowthDeserved(c.Baselines(), base, c.rules, r) {
      assert r.identity in Keys(c.Baselines()[r.rule]) && r.identity !in Keys(base[r.rule].value);
    }
  }

  // ----- Conservation

  predicate DeclarationBearing(entry: Json) {
    && entry.Object?
    && Field(entry.fields, "locator").Object?
    && "declaration" in Field(entry.fields, "locator").fields
  }

  lemma CleanBearingEntryRegisters(entry: Json, repo: Repository)
    requires DeclarationBearing(entry) && LocatorIssue(entry.fields, repo).None?
    ensures Registration(entry).Some?
  {}

  lemma RegistersIffBearing(entries: seq<Json>, repo: Repository, findings: seq<Finding>, i: nat)
    requires InOrder(entries, repo, findings) && i < |entries|
    ensures i in Registers(entries, repo) <==> DeclarationBearing(entries[i])
  {
    assert Clean(entries, repo, i);
    if DeclarationBearing(entries[i]) {
      CleanBearingEntryRegisters(entries[i], repo);
    }
  }

  /** The finding that entry `i` stands for. */
  ghost function Stands(c: Commit, i: nat): Finding
    requires Entries(c.ledger).Some? && InOrder(Entries(c.ledger).value, c.repo, c.findings)
    requires i in c.Registers()
  {
    LastRegistrable(c.findings, c.Registers()[i]).value
  }

  /** On a clean run nothing is unaccounted for: every finding is registered by exactly one entry or
      is in its rule's baseline, every baseline entry is witnessed by an unregistered finding, and
      the entries that name a declaration correspond one to one to the registered findings. */
  lemma CleanLintConserves(c: Commit, base: Option<Base>)
    requires c.Loaded() && BaseFor(c, base) && LintsClean(c, base)
    ensures var regs := c.Registers();
            && (forall f | f in c.findings ::
                  || (exists i | i in regs :: ExemptedBy(regs, c.findings, i, f)
                                              && forall j | j in regs && j != i :: !ExemptedBy(regs, c.findings, j, f))
                  || f.identity in c.Baselines()[f.rule])
            && (forall rule, k | rule in c.rules && k in c.Baselines()[rule] ::
                  exists f | f in c.findings :: f.rule == rule && f.identity == k && !Exempted(regs, c.findings, f))
            && (forall i | 0 <= i < |Entries(c.ledger).value| ::
                  i in regs <==> DeclarationBearing(Entries(c.ledger).value[i]))
            && (forall i | i in regs :: ExemptedBy(regs, c.findings, i, Stands(c, i)))
            && (forall i, j | i in regs && j in regs && i != j :: Stands(c, i) != Stands(c, j))
            && (forall f | Exempted(regs, c.findings, f) :: exists i | i in regs :: f == Stands(c, i))
  {
    var regs := c.Registers();
    var entries := Entries(c.ledger).value;
    forall i | 0 <= i < |entries| ensures i in regs <==> DeclarationBearing(entries[i]) {
      RegistersIffBearing(entries, c.repo, c.findings, i);
    }
    RegisteredOneToOne(c, regs);
    forall f | f in c.findings && f.identity !in c.Baselines()[f.rule]
      ensures exists i | i in regs :: ExemptedBy(regs, c.findings, i, f)
                                      && forall j | j in regs && j != i :: !ExemptedBy(regs, c.findings, j, f)
    {
      assert f.identity !in c.Unregistered(f.rule);
      var i :| i in regs && ExemptedBy(regs, c.findings, i, f);
    }
    forall rule, k | rule in c.rules && k in c.Baselines()[rule]
      ensures exists f | f in c.findings :: f.rule == rule && f.identity == k && !Exempted(regs, c.findings, f)
    {
      assert k in Keys(c.Baselines()[rule]);
      assert k in c.Unregistered(rule);
    }
  }

  lemma RegisteredOneToOne(c: Commit, regs: map<nat, Declaration>)
    requires Entries(c.ledger).Some? && InOrder(Entries(c.ledger).value, c.repo, c.findings)
    requires regs == c.Registers()
    ensures forall i | i in regs :: ExemptedBy(regs, c.findings, i, Stands(c, i))
    ensures forall i, j | i in regs && j in regs && i != j :: Stands(c, i) != Stands(c, j)
    ensures forall f | Exempted(regs, c.findings, f) :: exists i | i in regs :: f == Stands(c, i)
  {
    forall i | i in regs
      ensures ExemptedBy(regs, c.findings, i, Stands(c, i)) && Declared(Stands(c, i)) == Some(regs[i])
    {
      assert Claims(regs, i, regs[i]);
      LastIsRegistrable(c.findings, regs[i]);
    }
    forall f | Exempted(regs, c.findings, f) ensures exists i | i in regs :: f == Stands(c, i) {
      var i :| i in regs && ExemptedBy(regs, c.findings, i, f);
      assert f == Stands(c, i);
    }
  }

  // ----- The ratchet over a history

  /** Each commit was linted clean against the baselines its predecessor has. */
  ghost predicate CleanHistory(h: seq<Commit>) {
    && (forall i | 0 <= i < |h| :: h[i].Loaded())
    && (forall i | 0 < i < |h| ::
          Readable(h[i - 1].files, h[i].rules) && LintsClean(h[i], Some(BaseOf(h[i - 1].files, h[i].rules))))
  }

  lemma CommitShrinks(before: Commit, c: Commit, rule: string)
    requires before.Loaded() && c.Loaded() && rule in before.rules && rule in c.rules
    requires Shrunk(c, Some(BaseOf(before.files, c.rules)))
    ensures Keys(c.Baselines()[rule]) <= Keys(before.Baselines()[rule])
  {
    assert rule in before.Baselines();
    assert BaseOf(before.files, c.rules)[rule] == Some(before.Baselines()[rule]);
  }

  /** The baseline of a rule in every commit. */
  ghost function Ceilings(h: seq<Commit>, rule: string): seq<set<Identity>>
    requires forall k | 0 <= k < |h| :: rule in h[k].Baselines()
  {
    seq(|h|, k requires 0 <= k < |h| => Keys(h[k].Baselines()[rule]))
  }

  lemma {:induction false} Descends(sets: seq<set<Identity>>, i: nat, j: nat)
    requires forall k | 0 < k < |sets| :: sets[k] <= sets[k - 1]
    requires i <= j < |sets|
    ensures sets[j] <= sets[i]
  {
    if i < j {
      Descends(sets, i, j - 1);
    }
  }

  /** What the growth checks alone establish about a rule. */
  ghost predicate Ratcheted(h: seq<Commit>, rule: string) {
    && (forall k | 0 <= k < |h| :: rule in h[k].Baselines())
    && (forall k | 0 < k < |h| :: Keys(h[k].Baselines()[rule]) <= Keys(h[k - 1].Baselines()[rule]))
  }

  lemma HistoryStep(h: seq<Commit>, rule: string, k: nat)
    requires CleanHistory(h) && k < |h| && forall i | 0 <= i < |h| :: rule in h[i].rules
    ensures rule in h[k].Baselines()
    ensures k > 0 ==>
              rule in h[k - 1].Baselines() && Keys(h[k].Baselines()[rule]) <= Keys(h[k - 1].Baselines()[rule])
  {
    assert h[k].Loaded();
    if k > 0 {
      assert h[k - 1].Loaded();
      CommitShrinks(h[k - 1], h[k], rule);
    }
  }

  lemma CleanIsRatcheted(h: seq<Commit>, rule: string)
    requires CleanHistory(h) && forall k | 0 <= k < |h| :: rule in h[k].rules
    ensures Ratcheted(h, rule)
  {
    forall k: nat | k < |h|
      ensures rule in h[k].Baselines()
      ensures k > 0 ==>
                rule in h[k - 1].Baselines() && Keys(h[k].Baselines()[rule]) <= Keys(h[k - 1].Baselines()[rule])
    {
      HistoryStep(h, rule, k);
    }
  }

  lemma RatchetedShrinks(h: seq<Commit>, rule: string, i: nat, j: nat)
    requires Ratcheted(h, rule) && i <= j < |h|
    ensures Keys(h[j].Baselines()[rule]) <= Keys(h[i].Baselines()[rule])
  {
    Descends(Ceilings(h, rule), i, j);
  }

  /** No baseline of a rule that all commits have ever grows. */
  lemma BaselinesOnlyShrink(h: seq<Commit>, rule: string, i: nat, j: nat)
    requires CleanHistory(h) && i <= j < |h|
    requires forall k | 0 <= k < |h| :: rule in h[k].rules
    ensures rule in h[i].Baselines() && rule in h[j].Baselines()
    ensures Keys(h[j].Baselines()[rule]) <= Keys(h[i].Baselines()[rule])
  {
    CleanIsRatcheted(h, rule);
    RatchetedShrinks(h, rule, i, j);
  }

  /** Along any clean history, the unregistered findings of a rule at the end were all in its baseline
      at the start: no new violation ever enters without a ledger entry. */
  lemma NoNewUnregisteredFindings(h: seq<Commit>, rule: string)
    requires |h| > 1 && CleanHistory(h)
    requires forall k | 0 <= k < |h| :: rule in h[k].rules
    ensures Entries(h[|h| - 1].ledger).Some?
    ensures h[|h| - 1].Unregistered(rule) <= Keys(h[0].Baselines()[rule])
  {
    var n := |h| - 1;
    BaselinesOnlyShrink(h, rule, 0, n);
    assert LintsClean(h[n], Some(BaseOf(h[n - 1].files, h[n].rules)));
  }
}
