/** Frozen size ceilings of legacy specification files: the exception catalog, the checks of one
    revision, and what a clean history guarantees. */
module SizeRatchet {
  import opened Wrappers
  import opened PythonText
  import opened Strings
  import opened SpecMetadata

  // ----- The catalog file

  /** A `path<TAB>size` record. */
  function Record(line: string): Option<(string, nat)> {
    var parts := SplitOn(line, '\t');
    if |parts| != 2 || parts[0] == [] || !Digits(parts[1]) then None
    else Some((parts[0], Number(parts[1])))
  }

  /** Python reads no numeral with more digits. */
  const MAX_DIGITS := 4300

  predicate TooLong(line: string) {
    var parts := SplitOn(line, '\t');
    Record(line).Some? && |parts[1]| > MAX_DIGITS
  }

  lemma TooLongIff(line: string)
    ensures TooLong(line) <==> exists path, digits :: RecordShape(line, path, digits) && |digits| > 4300
  {
    if Record(line).Some? {
      var path, digits := SplitOn(line, '\t')[0], SplitOn(line, '\t')[1];
      RecordPieces(line, path, digits);
      assert RecordShape(line, path, digits);
    }
    if path, digits :| RecordShape(line, path, digits) && |digits| > 4300 {
      RecordHas(path, digits);
      RecordParts(path, digits);
    }
  }

  lemma RecordParts(path: string, digits: string)
    requires '\t' !in path && Digits(digits)
    ensures SplitOn(path + ("\t" + digits), '\t') == [path, digits]
  {
    SplitFirst(path, '\t', digits);
    FindAbsent(digits, '\t');
  }

  type Catalog = map<string, nat>

  /** The catalog of a file: the first record of a path counts, malformed lines do not. */
  function CatalogOf(lines: seq<string>): Catalog {
    if lines == [] then map[]
    else
      var before := CatalogOf(lines[..|lines| - 1]);
      match Record(lines[|lines| - 1])
      case Some((path, size)) =>
        if Blank(lines[|lines| - 1]) || path in before then before else before[path := size]
      case None => before
  }

  lemma RecordHas(path: string, digits: string)
    requires path != "" && '\t' !in path && Digits(digits)
    ensures Record(path + ("\t" + digits)) == Some((path, Number(digits)))
  {
    SplitFirst(path, '\t', digits);
    FindAbsent(digits, '\t');
  }

  /** A record is a nonempty path, one tab and a decimal size. */
  lemma RecordIff(line: string, path: string, size: nat)
    ensures Record(line) == Some((path, size)) <==>
            exists digits :: RecordShape(line, path, digits) && Number(digits) == size
  {
    if Record(line) == Some((path, size)) {
      var digits := SplitOn(line, '\t')[1];
      RecordPieces(line, path, digits);
      assert RecordShape(line, path, digits);
    }
    if digits :| RecordShape(line, path, digits) && Number(digits) == size {
      RecordHas(path, digits);
    }
  }

  ghost predicate RecordShape(line: string, path: string, digits: string) {
    path != "" && '\t' !in path && Digits(digits) && line == path + ("\t" + digits)
  }

  lemma RecordPieces(line: string, path: string, digits: string)
    requires SplitOn(line, '\t') == [path, digits]
    ensures '\t' !in path && line == path + ("\t" + digits)
  {
    var k := Find(line, '\t');
    assert k < |line|;
    CutAt(line, k);
    SplitHead(line, '\t');
    assert [path, digits][1..] == [digits];
    SplitAlone(line[k + 1..], digits);
  }

  lemma SplitAlone(s: string, part: string)
    requires SplitOn(s, '\t') == [part]
    ensures s == part
  {}

  /** The first record of a path counts. */
  lemma {:induction false} FirstRecordCounts(lines: seq<string>, k: nat)
    requires k < |lines| && !Blank(lines[k]) && Record(lines[k]).Some?
    requires forall i | 0 <= i < k ::
               Blank(lines[i]) || Record(lines[i]).None? || Record(lines[i]).value.0 != Record(lines[k]).value.0
    ensures var (path, size) := Record(lines[k]).value;
            path in CatalogOf(lines) && CatalogOf(lines)[path] == size
  {
    var n := |lines| - 1;
    if k < n {
      FirstRecordCounts(lines[..n], k);
    } else {
      CatalogHas(lines[..n], Record(lines[k]).value.0);
      assert forall i | 0 <= i < n :: lines[..n][i] == lines[i];
    }
  }

  datatype Violation =
    | Malformed(line: nat) | DuplicateRecord(line: nat)
    | FileSize(path: string)
    | InvalidPath(path: string) | MissingFile(path: string) | NotRegular(path: string) | NotLegacy(path: string)
    | CeilingTooHigh(path: string) | CeilingNotNeeded(path: string)
    | CeilingRaised(path: string)

  /** Every record is well formed and no path has two. */
  ghost predicate WellRecorded(lines: seq<string>) {
    && (forall i | 0 <= i < |lines| :: Blank(lines[i]) || Record(lines[i]).Some?)
    && (forall i, j | 0 <= i < j < |lines| && !Blank(lines[i]) && !Blank(lines[j])
                      && Record(lines[i]).Some? && Record(lines[j]).Some? ::
          Record(lines[i]).value.0 != Record(lines[j]).value.0)
  }

  lemma {:induction false} CatalogHas(lines: seq<string>, path: string)
    ensures path in CatalogOf(lines) <==>
            exists i | 0 <= i < |lines| ::
                !Blank(lines[i]) && Record(lines[i]).Some? && Record(lines[i]).value.0 == path
  {
    if lines != [] {
      var n := |lines| - 1;
      CatalogHas(lines[..n], path);
      assert forall i | 0 <= i < n :: lines[..n][i] == lines[i];
    }
  }

  /** Line `k` would enter the catalog, but its size cannot be read: the run stops. */
  ghost predicate Unreadable(lines: seq<string>, k: nat)
    requires k < |lines|
  {
    !Blank(lines[k]) && TooLong(lines[k]) && Record(lines[k]).value.0 !in CatalogOf(lines[..k])
  }

  /** Some size cannot be read. */
  ghost predicate Stops(lines: seq<string>) {
    exists k | 0 <= k < |lines| :: Unreadable(lines, k)
  }

  /** What one line does to the catalog read so far. */
  datatype Turn = Skip | Malform | Repeat | Stop | Enter(path: string, size: nat)

  function TurnOf(line: string, catalog: Catalog): Turn {
    if Blank(line) then Skip
    else
      match Record(line)
      case None => Malform
      case Some((path, size)) =>
        if path in catalog then Repeat else if TooLong(line) then Stop else Enter(path, size)
  }

  /** Line `v.line` is malformed, or repeats the path of an earlier record. */
  ghost predicate RecordFault(lines: seq<string>, v: Violation) {
    match v
    case Malformed(n) => 1 <= n <= |lines| && !Blank(lines[n - 1]) && Record(lines[n - 1]).None?
    case DuplicateRecord(n) =>
      && 1 <= n <= |lines| && !Blank(lines[n - 1]) && Record(lines[n - 1]).Some?
      && Record(lines[n - 1]).value.0 in CatalogOf(lines[..n - 1])
    case _ => false
  }

  method ParseSizeExceptions(lines: seq<string>) returns (parsed: Option<(Catalog, seq<Violation>)>)
    ensures parsed.None? <==> Stops(lines)
    ensures parsed.Some? ==> parsed.value.0 == CatalogOf(lines) && (parsed.value.1 == [] <==> WellRecorded(lines))
    ensures parsed.Some? ==> forall v :: v in parsed.value.1 <==> RecordFault(lines, v)
  {
    var catalog: Catalog, vs := map[], [];
    for k := 0 to |lines|
      invariant catalog == CatalogOf(lines[..k])
      invariant vs == [] <==> WellRecorded(lines[..k])
      invariant !StopsBefore(lines, k)
      invariant Faults(lines, k, vs)
    {
      TurnNext(lines, k);
      FaultsNext(lines, k, vs);
      match TurnOf(lines[k], catalog) {
        case Skip =>
        case Malform => vs := vs + [Malformed(k + 1)];
        case Repeat => vs := vs + [DuplicateRecord(k + 1)];
        case Stop => return None;
        case Enter(path, size) => catalog := catalog[path := size];
      }
    }
    assert lines[..|lines|] == lines;
    return Some((catalog, vs));
  }

  ghost predicate Faults(lines: seq<string>, k: nat, vs: seq<Violation>) {
    forall v :: v in vs <==> RecordFault(lines, v) && v.line <= k
  }

  lemma FaultsNext(lines: seq<string>, k: nat, vs: seq<Violation>)
    requires k < |lines| && Faults(lines, k, vs)
    ensures match TurnOf(lines[k], CatalogOf(lines[..k]))
            case Malform => Faults(lines, k + 1, vs + [Malformed(k + 1)])
            case Repeat => Faults(lines, k + 1, vs + [DuplicateRecord(k + 1)])
            case _ => Faults(lines, k + 1, vs)
  {
    assert lines[k + 1 - 1] == lines[k] && lines[..k + 1 - 1] == lines[..k];
  }

  ghost predicate StopsBefore(lines: seq<string>, n: nat)
    requires n <= |lines|
  {
    exists k | 0 <= k < n :: Unreadable(lines, k)
  }

  lemma TurnNext(lines: seq<string>, k: nat)
    requires k < |lines|
    ensures var turn := TurnOf(lines[k], CatalogOf(lines[..k]));
            && (turn.Stop? <==> Unreadable(lines, k))
            && (StopsBefore(lines, k + 1) <==> StopsBefore(lines, k) || turn.Stop?)
            && (turn.Stop? ==> Stops(lines))
            && (WellRecorded(lines[..k + 1]) <==> WellRecorded(lines[..k]) && !turn.Malform? && !turn.Repeat?)
            && (!turn.Stop? ==>
                  CatalogOf(lines[..k + 1]) ==
                  if turn.Enter? then CatalogOf(lines[..k])[turn.path := turn.size] else CatalogOf(lines[..k]))
  {
    assert lines[..k + 1][..k] == lines[..k];
    RecordedNext(lines, k);
  }

  lemma RecordedNext(lines: seq<string>, k: nat)
    requires k < |lines|
    ensures WellRecorded(lines[..k + 1]) <==>
            && WellRecorded(lines[..k])
            && (Blank(lines[k]) || (Record(lines[k]).Some? && Record(lines[k]).value.0 !in CatalogOf(lines[..k])))
  {
    var a, b := lines[..k], lines[..k + 1];
    assert forall i | 0 <= i < k :: a[i] == b[i];
    assert b[k] == lines[k];
    if !Blank(lines[k]) && Record(lines[k]).Some? {
      CatalogHas(a, Record(lines[k]).value.0);
    }
  }

  // ----- One revision

  predicate EndsWith(s: string, t: string) {
    |s| >= |t| && s[|s| - |t|..] == t
  }

  function PathParts(path: string): seq<string> {
    SplitOn(path, '/')
  }

  /** A path that is its own canonical form, names a Markdown file and lies under docs/specs. */
  predicate Canonical(path: string) {
    var parts := PathParts(path);
    && '\0' !in path
    && (forall p | p in parts :: p != "" && p != "." && p != "..")
    && |parts| >= 2 && parts[0] == "docs" && parts[1] == "specs"
    && EndsWith(parts[|parts| - 1], ".md") && |parts[|parts| - 1]| > 3
  }

  /** The linter visits every Markdown file below docs/specs. */
  predicate Visited(path: string) {
    var parts := PathParts(path);
    |parts| >= 3 && parts[0] == "docs" && parts[1] == "specs" && EndsWith(parts[|parts| - 1], ".md")
  }

  lemma CanonicalIsVisited(path: string)
    requires Canonical(path)
    ensures Visited(path)
  {
    assert "specs"[2] != ".md"[0];
    assert !EndsWith("specs", ".md");
  }

  lemma EndsIff(s: string, t: string)
    ensures EndsWith(s, t) <==> exists a :: s == a + t
  {
    if EndsWith(s, t) {
      CutBefore(s, |s| - |t|);
    }
  }

  lemma EndsInTail(a: string, last: string, c: char, t: string)
    requires c !in t && (a == "" || a[|a| - 1] == c)
    ensures EndsWith(a + last, t) <==> EndsWith(last, t)
  {
    var s := a + last;
    if |last| >= |t| {
      assert s[|s| - |t|..] == last[|last| - |t|..];
    } else if a != "" && |s| >= |t| {
      assert s[|s| - |t|..][|t| - |last| - 1] == c;
    }
  }

  lemma {:induction false} LastPart(s: string, c: char) returns (a: string)
    ensures var parts := SplitOn(s, c); s == a + parts[|parts| - 1]
    ensures a == "" || a[|a| - 1] == c
    decreases |s|
  {
    var k := Find(s, c);
    if k == |s| {
      a := "";
    } else {
      var b := LastPart(s[k + 1..], c);
      LaterParts(s, c);
      a := s[..k] + ([c] + b);
      UpToLast(s, c, b, SplitOn(s[k + 1..], c)[|SplitOn(s[k + 1..], c)| - 1]);
    }
  }

  lemma UpToLast(s: string, c: char, b: string, last: string)
    requires Find(s, c) < |s| && s[Find(s, c) + 1..] == b + last
    requires b == "" || b[|b| - 1] == c
    ensures var a := s[..Find(s, c)] + ([c] + b); s == a + last && a[|a| - 1] == c
  {
    var k := Find(s, c);
    CutAt(s, k);
    Regrouped(s[..k], [c], b, last);
    assert ([c] + b)[|b|] == c;
  }

  lemma Regrouped(a: string, b: string, c: string, d: string)
    ensures a + (b + (c + d)) == a + (b + c) + d
  {}

  /** Text ends as its last part does, if the end has no separator. */
  lemma LastPartEnds(s: string, c: char, t: string)
    requires c !in t
    ensures var parts := SplitOn(s, c); EndsWith(parts[|parts| - 1], t) <==> EndsWith(s, t)
  {
    var a := LastPart(s, c);
    var parts := SplitOn(s, c);
    EndsInTail(a, parts[|parts| - 1], c, t);
  }

  lemma LaterParts(s: string, c: char)
    requires Find(s, c) < |s|
    ensures var parts, later := SplitOn(s, c), SplitOn(s[Find(s, c) + 1..], c);
            |later| > 0 && |parts| == |later| + 1 && parts[|parts| - 1] == later[|later| - 1]
  {
    SplitHead(s, c);
  }

  lemma Below(word: string, rest: string)
    requires '/' !in word
    ensures PathParts((word + ['/']) + rest) == [word] + PathParts(rest)
  {
    Associative(word, ['/'], rest);
    SplitFirst(word, '/', rest);
  }

  lemma BelowSpecs(rest: string)
    ensures PathParts("docs/" + ("specs/" + rest)) == ["docs"] + (["specs"] + PathParts(rest))
  {
    assert "docs" + ['/'] == "docs/" && "specs" + ['/'] == "specs/";
    Below("specs", rest);
    Below("docs", "specs/" + rest);
  }

  lemma FirstPart(path: string) returns (rest: string)
    requires |PathParts(path)| >= 2
    ensures path == PathParts(path)[0] + (['/'] + rest) && PathParts(path)[1..] == PathParts(rest)
  {
    var k := Find(path, '/');
    rest := path[k + 1..];
    SplitHead(path, '/');
    CutAt(path, k);
  }

  lemma UnderSpecs(path: string) returns (rest: string)
    requires |PathParts(path)| >= 3 && PathParts(path)[0] == "docs" && PathParts(path)[1] == "specs"
    ensures path == "docs/" + ("specs/" + rest)
  {
    var below := FirstPart(path);
    rest := FirstPart(below);
    assert "specs/" + rest == "specs" + (['/'] + rest);
    assert "docs/" + below == "docs" + (['/'] + below);
  }

  /** The linter visits exactly the paths below docs/specs that end in `.md`. */
  lemma VisitedIff(path: string)
    ensures Visited(path) <==> exists rest :: path == "docs/" + ("specs/" + rest) && EndsWith(rest, ".md")
  {
    if Visited(path) {
      var rest := UnderSpecs(path);
      BelowSpecs(rest);
      LastPartEnds(rest, '/', ".md");
    }
    if rest :| path == "docs/" + ("specs/" + rest) && EndsWith(rest, ".md") {
      BelowSpecs(rest);
      LastPartEnds(rest, '/', ".md");
    }
  }

  /** Canonical paths are visited, have no NUL, no empty or dotted part, and a named file. */
  lemma CanonicalIff(path: string)
    ensures Canonical(path) <==>
            && Visited(path) && '\0' !in path
            && "" !in PathParts(path) && "." !in PathParts(path) && ".." !in PathParts(path)
            && PathParts(path)[|PathParts(path)| - 1] != ".md"
  {
    if Canonical(path) {
      CanonicalIsVisited(path);
    }
  }

  function KindOf(path: string): Kind {
    ClassifyPath(PathParts(path)).0
  }

  /** Regular files with their sizes, other existing paths, the size limits, and the catalog file's
      lines. Without symbolic links a listed path is safe exactly when it is a regular file. */
  datatype Revision = Revision(
    files: map<string, nat>, others: set<string>, limits: Kind -> nat, catalogLines: seq<string>)
  {
    function Catalog(): Catalog {
      CatalogOf(catalogLines)
    }

    function LimitOf(path: string): nat {
      if KindOf(path) == Legacy && path in Catalog() then Catalog()[path] else limits(KindOf(path))
    }
  }

  ghost predicate WithinLimit(r: Revision, path: string)
    requires path in r.files
  {
    KindOf(path) == Unknown || r.files[path] <= r.LimitOf(path)
  }

  /** The entry is needed and exact. */
  ghost predicate EntryInOrder(r: Revision, path: string)
    requires path in r.Catalog()
  {
    && Canonical(path) && path in r.files && KindOf(path) == Legacy
    && r.files[path] >= r.Catalog()[path] > r.limits(Legacy)
  }

  ghost predicate NotRaised(current: Catalog, previous: Option<Catalog>) {
    previous.Some? ==> forall path | path in previous.value && path in current :: current[path] <= previous.value[path]
  }

  ghost predicate SizesClean(r: Revision, previous: Option<Catalog>) {
    && WellRecorded(r.catalogLines)
    && (forall path | path in r.files && Visited(path) :: WithinLimit(r, path))
    && (forall path | path in r.Catalog() :: EntryInOrder(r, path))
    && NotRaised(r.Catalog(), previous)
  }

  method CheckSizes(r: Revision, catalog: Catalog) returns (vs: seq<Violation>)
    requires catalog == r.Catalog()
    ensures forall v :: v in vs <==>
              v.FileSize? && v.path in r.files && Visited(v.path) && !WithinLimit(r, v.path)
  {
    vs := [];
    var todo := r.files.Keys;
    while todo != {}
      invariant todo <= r.files.Keys
      invariant forall v :: v in vs <==>
                  v.FileSize? && v.path in r.files.Keys - todo && Visited(v.path) && !WithinLimit(r, v.path)
    {
      var path :| path in todo;
      todo := todo - {path};
      var kind := KindOf(path);
      if Visited(path) && kind != Unknown {
        var limit := if kind == Legacy && path in catalog then catalog[path] else r.limits(kind);
        if r.files[path] > limit {
          vs := vs + [FileSize(path)];
        }
      }
    }
  }

  /** The fault of a catalog entry: the first of these that applies. */
  function EntryFault(r: Revision, path: string): Option<Violation>
    requires path in r.Catalog()
  {
    var ceiling := r.Catalog()[path];
    if !Canonical(path) then Some(InvalidPath(path))
    else if path !in r.files && path !in r.others then Some(MissingFile(path))
    else if path !in r.files then Some(NotRegular(path))
    else if KindOf(path) != Legacy then Some(NotLegacy(path))
    else if r.files[path] < ceiling then Some(CeilingTooHigh(path))
    else if ceiling <= r.limits(Legacy) then Some(CeilingNotNeeded(path))
    else None
  }

  /** Each fault exactly for its own reason, and none exactly for an entry that is needed and exact. */
  lemma NoFaultIff(r: Revision, path: string)
    requires path in r.Catalog()
    ensures EntryFault(r, path).None? <==> EntryInOrder(r, path)
    ensures var fault, legacy := EntryFault(r, path),
                               Canonical(path) && path in r.files && ClassifyPath(PathParts(path)).0 == Legacy;
            && (fault == Some(InvalidPath(path)) <==> !Canonical(path))
            && (fault == Some(MissingFile(path)) <==> Canonical(path) && path !in r.files.Keys + r.others)
            && (fault == Some(NotRegular(path)) <==> Canonical(path) && path !in r.files && path in r.others)
            && (fault == Some(NotLegacy(path)) <==> Canonical(path) && path in r.files && !legacy)
            && (fault == Some(CeilingTooHigh(path)) <==> legacy && r.Catalog()[path] > r.files[path])
            && (fault == Some(CeilingNotNeeded(path)) <==>
                  legacy && r.limits(Legacy) >= r.Catalog()[path] && r.files[path] >= r.Catalog()[path])
  {}

  /** A file of a known kind is within its ceiling if it is an excepted legacy file, and within the limit
      of its kind otherwise. */
  lemma WithinLimitMeans(r: Revision, path: string)
    requires path in r.files
    ensures var kind, size := ClassifyPath(PathParts(path)).0, r.files[path];
            WithinLimit(r, path) <==>
            || kind == Unknown
            || (kind == Legacy && path in r.Catalog() && size <= r.Catalog()[path])
            || (!(kind == Legacy && path in r.Catalog()) && size <= r.limits(kind))
  {}

  method CheckCatalog(r: Revision, catalog: Catalog) returns (vs: seq<Violation>)
    requires catalog == r.Catalog()
    ensures forall v :: v in vs <==> exists path | path in catalog :: EntryFault(r, path) == Some(v)
  {
    vs := [];
    var todo := catalog.Keys;
    while todo != {}
      invariant todo <= catalog.Keys
      invariant forall v :: v in vs <==> exists path | path in catalog.Keys - todo :: EntryFault(r, path) == Some(v)
    {
      var path :| path in todo;
      ghost var checked := catalog.Keys - todo;
      todo := todo - {path};
      assert catalog.Keys - todo == checked + {path};
      if !Canonical(path) {
        vs := vs + [InvalidPath(path)];
      } else if path !in r.files && path !in r.others {
        vs := vs + [MissingFile(path)];
      } else if path !in r.files {
        vs := vs + [NotRegular(path)];
      } else if KindOf(path) != Legacy {
        vs := vs + [NotLegacy(path)];
      } else if r.files[path] < catalog[path] {
        vs := vs + [CeilingTooHigh(path)];
      } else if catalog[path] <= r.limits(Legacy) {
        vs := vs + [CeilingNotNeeded(path)];
      }
    }
  }

  method CheckRatchet(catalog: Catalog, previous: Option<Catalog>) returns (vs: seq<Violation>)
    ensures forall v :: v in vs <==>
              && v.CeilingRaised? && previous.Some? && v.path in previous.value && v.path in catalog
              && catalog[v.path] > previous.value[v.path]
  {
    vs := [];
    if previous.None? {
      return;
    }
    var todo := previous.value.Keys;
    while todo != {}
      invariant todo <= previous.value.Keys
      invariant forall v :: v in vs <==>
                  && v.CeilingRaised? && v.path in previous.value.Keys - todo && v.path in catalog
                  && catalog[v.path] > previous.value[v.path]
    {
      var path :| path in todo;
      todo := todo - {path};
      if path !in catalog {
        continue;
      }
      if catalog[path] > previous.value[path] {
        vs := vs + [CeilingRaised(path)];
      }
    }
  }

  /** The checks are silent exactly when sizes, entries and ceilings are in order. */
  lemma SilenceIff(
    r: Revision, previous: Option<Catalog>, sizes: seq<Violation>, entries: seq<Violation>, raised: seq<Violation>)
    requires forall v :: v in sizes <==>
               v.FileSize? && v.path in r.files && Visited(v.path) && !WithinLimit(r, v.path)
    requires forall v :: v in entries <==> exists path | path in r.Catalog() :: EntryFault(r, path) == Some(v)
    requires forall v :: v in raised <==>
               && v.CeilingRaised? && previous.Some? && v.path in previous.value && v.path in r.Catalog()
               && r.Catalog()[v.path] > previous.value[v.path]
    ensures sizes == [] <==> forall path | path in r.files && Visited(path) :: WithinLimit(r, path)
    ensures entries == [] <==> forall path | path in r.Catalog() :: EntryInOrder(r, path)
    ensures raised == [] <==> NotRaised(r.Catalog(), previous)
  {
    SizesSilentIff(r, sizes);
    EntriesSilentIff(r, entries);
    RaisedSilentIff(r.Catalog(), previous, raised);
  }

  lemma SizesSilentIff(r: Revision, sizes: seq<Violation>)
    requires forall v :: v in sizes <==>
               v.FileSize? && v.path in r.files && Visited(v.path) && !WithinLimit(r, v.path)
    ensures sizes == [] <==> forall path | path in r.files && Visited(path) :: WithinLimit(r, path)
  {
    if sizes != [] {
      assert sizes[0] in sizes;
    }
    if path :| path in r.files && Visited(path) && !WithinLimit(r, path) {
      assert FileSize(path) in sizes;
    }
  }

  lemma EntriesSilentIff(r: Revision, entries: seq<Violation>)
    requires forall v :: v in entries <==> exists path | path in r.Catalog() :: EntryFault(r, path) == Some(v)
    ensures entries == [] <==> forall path | path in r.Catalog() :: EntryInOrder(r, path)
  {
    forall path | path in r.Catalog() ensures EntryFault(r, path).None? <==> EntryInOrder(r, path) {
      NoFaultIff(r, path);
    }
    if entries != [] {
      assert entries[0] in entries;
    }
    if path :| path in r.Catalog() && EntryFault(r, path).Some? {
      assert EntryFault(r, path).value in entries;
    }
  }

  lemma RaisedSilentIff(catalog: Catalog, previous: Option<Catalog>, raised: seq<Violation>)
    requires forall v :: v in raised <==>
               && v.CeilingRaised? && previous.Some? && v.path in previous.value && v.path in catalog
               && catalog[v.path] > previous.value[v.path]
    ensures raised == [] <==> NotRaised(catalog, previous)
  {
    if raised != [] {
      assert raised[0] in raised;
    }
    if previous.Some? {
      if path :| path in previous.value && path in catalog && catalog[path] > previous.value[path] {
        assert CeilingRaised(path) in raised;
      }
    }
  }

  /** Exactly the size violations of one run. */
  ghost predicate SizeReported(r: Revision, previous: Option<Catalog>, v: Violation) {
    match v
    case FileSize(path) => path in r.files && Visited(path) && !WithinLimit(r, path)
    case CeilingRaised(path) =>
      previous.Some? && path in previous.value && path in r.Catalog() && r.Catalog()[path] > previous.value[path]
    case Malformed(_) => RecordFault(r.catalogLines, v)
    case DuplicateRecord(_) => RecordFault(r.catalogLines, v)
    case _ => exists path | path in r.Catalog() :: EntryFault(r, path) == Some(v)
  }

  /** The size checks of one run. */
  method CheckRevision(r: Revision, previous: Option<Catalog>) returns (vs: Option<seq<Violation>>)
    ensures vs.None? <==> Stops(r.catalogLines)
    ensures vs.Some? ==> (vs.value == [] <==> SizesClean(r, previous))
    ensures vs.Some? ==> forall v :: v in vs.value <==> SizeReported(r, previous, v)
  {
    var parsed := ParseSizeExceptions(r.catalogLines);
    if parsed.None? {
      return None;
    }
    var (catalog, malformed) := parsed.value;
    var sizes := CheckSizes(r, catalog);
    var entries := CheckCatalog(r, catalog);
    var raised := CheckRatchet(catalog, previous);
    SilenceIff(r, previous, sizes, entries, raised);
    var all := sizes + entries + raised + malformed;
    assert all == [] <==> sizes == [] && entries == [] && raised == [] && malformed == [];
    forall v ensures v in all <==> SizeReported(r, previous, v) {
      OneSizeReport(r, previous, sizes, entries, raised, malformed, v);
    }
    return Some(all);
  }

  lemma OneSizeReport(
    r: Revision, previous: Option<Catalog>, sizes: seq<Violation>, entries: seq<Violation>, raised: seq<Violation>,
    malformed: seq<Violation>, v: Violation)
    requires v in sizes <==> v.FileSize? && v.path in r.files && Visited(v.path) && !WithinLimit(r, v.path)
    requires v in entries <==> exists path | path in r.Catalog() :: EntryFault(r, path) == Some(v)
    requires v in raised <==>
             && v.CeilingRaised? && previous.Some? && v.path in previous.value && v.path in r.Catalog()
             && r.Catalog()[v.path] > previous.value[v.path]
    requires v in malformed <==> RecordFault(r.catalogLines, v)
    ensures v in sizes + entries + raised + malformed <==> SizeReported(r, previous, v)
  {
    EntryKinds(r, v);
  }

  lemma EntryKinds(r: Revision, v: Violation)
    ensures v.FileSize? || v.CeilingRaised? || v.Malformed? || v.DuplicateRecord? ==>
              !exists path | path in r.Catalog() :: EntryFault(r, path) == Some(v)
  {}

  // ----- What a clean revision and a clean history guarantee

  /** An excepted file's size is exactly its frozen ceiling, and above the default limit. */
  lemma ExceptedSizeIsItsCeiling(r: Revision, previous: Option<Catalog>, path: string)
    requires SizesClean(r, previous) && path in r.Catalog()
    ensures path in r.files && r.files[path] == r.Catalog()[path] > r.limits(Legacy)
  {
    assert EntryInOrder(r, path);
    CanonicalIsVisited(path);
    assert WithinLimit(r, path);
  }

  /** Each revision is clean, and compared with the catalog of the one before it. */
  ghost predicate CleanHistory(h: seq<Revision>) {
    && (forall i | 0 <= i < |h| :: SizesClean(h[i], None))
    && (forall i | 0 < i < |h| :: SizesClean(h[i], Some(h[i - 1].Catalog())))
  }

  /** A file listed throughout a clean history never grows. */
  lemma {:induction false} ListedFileNeverGrows(h: seq<Revision>, path: string, i: nat, j: nat)
    requires CleanHistory(h) && i <= j < |h|
    requires forall k | i <= k <= j :: path in h[k].Catalog()
    ensures path in h[i].files && path in h[j].files && h[j].files[path] <= h[i].files[path]
  {
    ExceptedSizeIsItsCeiling(h[j], None, path);
    if i < j {
      ListedFileNeverGrows(h, path, i, j - 1);
      ExceptedSizeIsItsCeiling(h[j - 1], None, path);
      assert SizesClean(h[j], Some(h[j - 1].Catalog()));
      assert NotRaised(h[j].Catalog(), Some(h[j - 1].Catalog()));
    }
  }

  /** A legacy file outside the catalog stays within the default limit. */
  lemma UnlistedFileIsWithinDefault(r: Revision, previous: Option<Catalog>, path: string)
    requires SizesClean(r, previous) && path in r.files && Visited(path)
    requires KindOf(path) == Legacy && path !in r.Catalog()
    ensures r.files[path] <= r.limits(Legacy)
  {
    assert WithinLimit(r, path);
  }
}
