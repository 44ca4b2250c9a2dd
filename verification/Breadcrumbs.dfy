/** Breadcrumbs of the directory browser: splitting POSIX, drive and UNC paths into clickable
    segments, and going back through any of them. */
module Breadcrumbs {
  import opened Wrappers
  import opened Strings

  datatype Segment = Segment(name: string, path: string)

  predicate IsSeparator(c: char) {
    c == '\\' || c == '/'
  }

  predicate InWord(c: char) {
    !IsSeparator(c)
  }

  /** The characters `.` does not match. */
  predicate IsLineTerminator(c: char) {
    c == '\n' || c == '\r' || c == '\U{2028}' || c == '\U{2029}'
  }

  predicate OneLine(s: string) {
    forall i | 0 <= i < |s| :: !IsLineTerminator(s[i])
  }

  predicate IsLetter(c: char) {
    'A' <= c <= 'Z' || 'a' <= c <= 'z'
  }

  /** The character classes, by code point. */
  lemma ClassesAre(c: char)
    ensures IsSeparator(c) <==> c as int in {47, 92}
    ensures IsLineTerminator(c) <==> c as int in {10, 13, 0x2028, 0x2029}
    ensures IsLetter(c) <==> 65 <= c as int <= 90 || 97 <= c as int <= 122
  {}

  // ----- Splitting

  /** What follows the leading separators. */
  function AfterSeparators(s: string): string {
    s[Leading(s, IsSeparator)..]
  }

  /** The nonempty parts between separators. */
  function Parts(s: string): seq<string>
    decreases |s|
  {
    if s == [] then []
    else if IsSeparator(s[0]) then Parts(s[1..])
    else [s[..Leading(s, InWord)]] + Parts(s[Leading(s, InWord)..])
  }

  // ----- The path syntaxes

  datatype Root = Posix | Drive(drive: string) | Unc(server: string, share: string)

  /** /^([A-Za-z]:)[\\/]*(.*)$/ with what the last group holds. */
  function DriveMatch(path: string): Option<(string, string)> {
    if |path| >= 2 && IsLetter(path[0]) && path[1] == ':' then
      var rest := AfterSeparators(path[2..]);
      if OneLine(rest) then Some((path[..2], rest)) else None
    else None
  }

  /** /^\\\\([^\\/]+)[\\/]([^\\/]+)[\\/]*(.*)$/ with its three groups. */
  function UncMatch(path: string): Option<(string, string, string)> {
    if |path| < 2 || path[0] != '\\' || path[1] != '\\' then None
    else ServerMatch(path[2..])
  }

  /** The pattern's part after the two backslashes: server, share and rest. */
  function ServerMatch(a: string): Option<(string, string, string)> {
    var k := Leading(a, InWord);
    if k == 0 || k == |a| then None
    else
      match ShareMatch(a[k + 1..])
      case Some((share, rest)) => Some((a[..k], share, rest))
      case None => None
  }

  /** The pattern's part after the server: share and rest. */
  function ShareMatch(b: string): Option<(string, string)> {
    var m := Leading(b, InWord);
    if m == 0 then None
    else
      var rest := AfterSeparators(b[m..]);
      if OneLine(rest) then Some((b[..m], rest)) else None
  }

  function Decompose(path: string): (Root, seq<string>) {
    match DriveMatch(path)
    case Some((drive, rest)) => (Drive(drive), Parts(rest))
    case None =>
      match UncMatch(path)
      case Some((server, share, rest)) => (Unc(server, share), Parts(rest))
      case None => (Posix, Parts(path))
  }

  function Prefix(root: Root): string {
    match root
    case Posix => ""
    case Drive(drive) => drive
    case Unc(server, share) => "\\\\" + server + "\\" + share
  }

  function Separator(root: Root): char {
    if root.Posix? then '/' else '\\'
  }

  function Joined(sep: char, parts: seq<string>): string {
    if parts == [] then "" else Joined(sep, parts[..|parts| - 1]) + [sep] + parts[|parts| - 1]
  }

  /** The path a breadcrumb navigates to. */
  function Render(root: Root, parts: seq<string>): string {
    if parts == [] then Prefix(root) + [Separator(root)] else Prefix(root) + Joined(Separator(root), parts)
  }

  function Crumb(root: Root, parts: seq<string>): Segment
    requires parts != []
  {
    Segment(parts[|parts| - 1], Render(root, parts))
  }

  /** The breadcrumbs above the first part: the file system and, off POSIX, the drive or share. */
  function Top(root: Root): seq<Segment> {
    if root.Posix? then [Segment("/", "/")]
    else [Segment("/", "/"), Segment(Render(root, []), Render(root, []))]
  }

  /** All breadcrumbs of a path, outermost first. */
  function Crumbs(root: Root, parts: seq<string>): seq<Segment> {
    Top(root) + seq(|parts|, k requires 0 <= k < |parts| => Crumb(root, parts[..k + 1]))
  }

  // ----- The code

  method AppendPathSegments(segs: seq<Segment>, acc0: string, parts: seq<string>, sep: char) returns (out: seq<Segment>)
    ensures |out| == |segs| + |parts| && segs <= out
    ensures forall k | 0 <= k < |parts| :: out[|segs| + k] == Segment(parts[k], acc0 + Joined(sep, parts[..k + 1]))
  {
    out := segs;
    var acc := acc0;
    for k := 0 to |parts|
      invariant |out| == |segs| + k && segs <= out
      invariant acc == acc0 + Joined(sep, parts[..k])
      invariant forall i | 0 <= i < k :: out[|segs| + i] == Segment(parts[i], acc0 + Joined(sep, parts[..i + 1]))
    {
      assert parts[..k + 1][..k] == parts[..k];
      acc := acc + [sep] + parts[k];
      assert acc == acc0 + Joined(sep, parts[..k + 1]);
      out := out + [Segment(parts[k], acc)];
    }
  }

  /** Splits a path into breadcrumbs, as the component does. */
  method PathSegments(path: string) returns (segs: seq<Segment>)
    ensures segs == if path == "" then [] else Segments(path)
  {
    if path == "" {
      return [];
    }
    var (root, parts) := Decompose(path);
    segs := PushSegments(root, parts);
  }

  method PushSegments(root: Root, parts: seq<string>) returns (segs: seq<Segment>)
    ensures segs == Crumbs(root, parts)
  {
    segs := [Segment("/", "/")];
    if !root.Posix? {
      segs := segs + [Segment(Prefix(root) + "\\", Prefix(root) + "\\")];
    }
    assert segs == Top(root);
    segs := AppendPathSegments(segs, Prefix(root), parts, Separator(root));
    forall j | |Top(root)| <= j < |segs| ensures segs[j] == Crumbs(root, parts)[j] {
      var k := j - |Top(root)|;
      assert parts[..k + 1][k] == parts[k];
      assert segs[|Top(root)| + k] == Segment(parts[k], Prefix(root) + Joined(Separator(root), parts[..k + 1]));
    }
  }

  function Segments(path: string): seq<Segment> {
    var (root, parts) := Decompose(path);
    Crumbs(root, parts)
  }

  // ----- Going back and forth

  predicate IsPart(p: string) {
    p != [] && forall i | 0 <= i < |p| :: !IsSeparator(p[i])
  }

  /** What decomposing a path yields. */
  ghost predicate Decomposed(root: Root, parts: seq<string>) {
    && (forall i | 0 <= i < |parts| :: IsPart(parts[i]))
    && match root
       case Posix => true
       case Drive(drive) =>
         |drive| == 2 && IsLetter(drive[0]) && drive[1] == ':' && forall i | 0 <= i < |parts| :: OneLine(parts[i])
       case Unc(server, share) =>
         IsPart(server) && IsPart(share) && forall i | 0 <= i < |parts| :: OneLine(parts[i])
  }

  lemma {:induction false} PartsAreParts(s: string)
    ensures forall i | 0 <= i < |Parts(s)| :: IsPart(Parts(s)[i]) && (OneLine(s) ==> OneLine(Parts(s)[i]))
    decreases |s|
  {
    if s != [] {
      var k := if IsSeparator(s[0]) then 1 else Leading(s, InWord);
      PartsAreParts(s[k..]);
      assert OneLine(s) ==> OneLine(s[k..]);
    }
  }

  lemma DecomposeDecomposes(path: string)
    ensures Decomposed(Decompose(path).0, Decompose(path).1)
  {
    match DriveMatch(path)
    case Some((_, rest)) => PartsAreParts(rest);
    case None =>
      match UncMatch(path)
      case Some((_, _, rest)) => PartsAreParts(rest);
      case None => PartsAreParts(path);
  }

  lemma PartsOfOne(sep: char, p: string, rest: string)
    requires IsSeparator(sep) && IsPart(p) && (rest != [] ==> IsSeparator(rest[0]))
    ensures Parts([sep] + p + rest) == [p] + Parts(rest)
  {
    var s := [sep] + p + rest;
    var t := p + rest;
    assert s[1..] == t;
    assert forall i | 0 <= i < |p| :: t[i] == p[i];
    LeadingRun(p, rest, InWord);
  }

  /** Joining from the front: the first part, then the rest. */
  lemma {:induction false} JoinedFront(sep: char, parts: seq<string>)
    requires parts != []
    ensures Joined(sep, parts) == [sep] + parts[0] + Joined(sep, parts[1..])
  {
    if |parts| > 1 {
      var n := |parts| - 1;
      JoinedFront(sep, parts[..n]);
      assert parts[..n][1..] == parts[1..][..n - 1];
    }
  }

  lemma {:induction false} PartsOfJoined(sep: char, parts: seq<string>)
    requires IsSeparator(sep) && forall i | 0 <= i < |parts| :: IsPart(parts[i])
    ensures Parts(Joined(sep, parts)) == parts
    ensures parts != [] ==> Joined(sep, parts) != [] && Joined(sep, parts)[0] == sep
  {
    if parts != [] {
      JoinedFront(sep, parts);
      PartsOfJoined(sep, parts[1..]);
      PartsOfOne(sep, parts[0], Joined(sep, parts[1..]));
    }
  }

  lemma {:induction false} JoinedIsOneLine(sep: char, parts: seq<string>)
    requires IsSeparator(sep) && forall i | 0 <= i < |parts| :: OneLine(parts[i])
    ensures OneLine(Joined(sep, parts))
  {
    if parts != [] {
      JoinedIsOneLine(sep, parts[..|parts| - 1]);
    }
  }

  lemma {:induction false} PartsSkipSeparators(s: string)
    ensures Parts(AfterSeparators(s)) == Parts(s)
  {
    if s != [] && IsSeparator(s[0]) {
      PartsSkipSeparators(s[1..]);
      assert AfterSeparators(s) == AfterSeparators(s[1..]);
    }
  }

  /** The tail of a rendered path: a lone separator or the joined parts. */
  function Tail(root: Root, parts: seq<string>): string {
    if parts == [] then [Separator(root)] else Joined(Separator(root), parts)
  }

  lemma TailParts(root: Root, parts: seq<string>)
    requires Decomposed(root, parts)
    ensures Parts(Tail(root, parts)) == parts
    ensures Tail(root, parts) != [] && Tail(root, parts)[0] == Separator(root)
    ensures !root.Posix? ==> OneLine(Tail(root, parts))
  {
    PartsOfJoined(Separator(root), parts);
    if !root.Posix? {
      JoinedIsOneLine(Separator(root), parts);
    }
    if parts == [] {
      assert [Separator(root)][1..] == [];
    }
  }

  lemma DriveRendered(root: Root, parts: seq<string>)
    requires root.Drive? && Decomposed(root, parts)
    ensures Decompose(Render(root, parts)) == (root, parts)
  {
    var path, tail := Render(root, parts), Tail(root, parts);
    TailParts(root, parts);
    assert path == root.drive + tail;
    assert path[2..] == tail && path[..2] == root.drive;
    assert OneLine(AfterSeparators(tail));
    PartsSkipSeparators(tail);
  }

  lemma ShareFinds(share: string, tail: string)
    requires IsPart(share) && tail != [] && IsSeparator(tail[0]) && OneLine(tail)
    ensures ShareMatch(share + tail) == Some((share, AfterSeparators(tail)))
  {
    LeadingRun(share, tail, InWord);
  }

  lemma ServerFinds(server: string, b: string)
    requires IsPart(server)
    ensures var a := server + (['\\'] + b);
            Leading(a, InWord) == |server| && a[..|server|] == server && a[|server| + 1..] == b
  {
    LeadingRun(server, ['\\'] + b, InWord);
    var a := server + (['\\'] + b);
    assert a[|server| + 1..] == (['\\'] + b)[1..] == b;
  }

  /** What the UNC pattern finds in a path of its shape. */
  lemma UncFinds(server: string, share: string, tail: string)
    requires IsPart(server) && IsPart(share) && tail != [] && IsSeparator(tail[0]) && OneLine(tail)
    ensures UncMatch(['\\', '\\'] + (server + (['\\'] + (share + tail)))) ==
            Some((server, share, AfterSeparators(tail)))
  {
    var a := server + (['\\'] + (share + tail));
    assert (['\\', '\\'] + a)[2..] == a;
    ServerFinds(server, share + tail);
    ShareFinds(share, tail);
  }

  lemma UncPath(server: string, share: string, tail: string)
    ensures Prefix(Unc(server, share)) + tail == ['\\', '\\'] + (server + (['\\'] + (share + tail)))
  {}

  lemma DecomposeUnc(path: string, server: string, share: string, rest: string)
    requires path != [] && path[0] == '\\' && UncMatch(path) == Some((server, share, rest))
    ensures Decompose(path) == (Unc(server, share), Parts(rest))
  {
    assert DriveMatch(path).None?;
  }

  lemma UncRendered(root: Root, parts: seq<string>)
    requires root.Unc? && Decomposed(root, parts)
    ensures Decompose(Render(root, parts)) == (root, parts)
  {
    var tail := Tail(root, parts);
    TailParts(root, parts);
    UncPath(root.server, root.share, tail);
    UncFinds(root.server, root.share, tail);
    PartsSkipSeparators(tail);
    DecomposeUnc(Prefix(root) + tail, root.server, root.share, AfterSeparators(tail));
  }

  lemma PosixRendered(parts: seq<string>)
    requires Decomposed(Posix, parts)
    ensures Decompose(Render(Posix, parts)) == (Posix, parts)
  {
    TailParts(Posix, parts);
    assert Render(Posix, parts) == Tail(Posix, parts);
  }

  /** A rendered path decomposes into what it was rendered from, in all three syntaxes. */
  lemma RenderedDecomposes(root: Root, parts: seq<string>)
    requires Decomposed(root, parts)
    ensures Decompose(Render(root, parts)) == (root, parts)
  {
    match root
    case Posix => PosixRendered(parts);
    case Drive(_) => DriveRendered(root, parts);
    case Unc(_, _) => UncRendered(root, parts);
  }

  lemma CrumbsPrefix(root: Root, parts: seq<string>, k: nat)
    requires k <= |parts|
    ensures Crumbs(root, parts[..k]) == Crumbs(root, parts)[..|Top(root)| + k]
  {
    var a, b := Crumbs(root, parts[..k]), Crumbs(root, parts)[..|Top(root)| + k];
    assert |a| == |b|;
    forall j | |Top(root)| <= j < |a| ensures a[j] == b[j] {
      var i := j - |Top(root)|;
      assert parts[..k][..i + 1] == parts[..i + 1];
    }
  }

  /** Navigating to any breadcrumb keeps exactly its ancestors: segmenting the path of breadcrumb `i`
      gives the first `i + 1` breadcrumbs, so segmenting the last one changes nothing. */
  lemma BreadcrumbsArePrefixClosed(path: string, i: nat)
    requires path != "" && i < |Segments(path)|
    ensures Segments(path)[i].path != ""
    ensures Segments(Segments(path)[i].path) == Segments(path)[..i + 1]
  {
    var (root, parts) := Decompose(path);
    DecomposeDecomposes(path);
    CrumbClosed(root, parts, i);
  }

  lemma CrumbClosed(root: Root, parts: seq<string>, i: nat)
    requires Decomposed(root, parts) && i < |Crumbs(root, parts)|
    ensures Crumbs(root, parts)[i].path != ""
    ensures Segments(Crumbs(root, parts)[i].path) == Crumbs(root, parts)[..i + 1]
  {
    var r, p := CrumbLeadsTo(root, parts, i);
    RenderedSegments(r, p);
  }

  lemma RenderedSegments(root: Root, parts: seq<string>)
    requires Decomposed(root, parts)
    ensures Segments(Render(root, parts)) == Crumbs(root, parts)
  {
    RenderedDecomposes(root, parts);
  }

  /** A crumb's path is the rendering of what the crumbs up to it were made from. */
  ghost predicate LeadsTo(segs: seq<Segment>, i: nat, r: Root, p: seq<string>)
    requires i < |segs|
  {
    Decomposed(r, p) && segs[i].path == Render(r, p) && segs[i].path != "" && Crumbs(r, p) == segs[..i + 1]
  }

  lemma CrumbLeadsTo(root: Root, parts: seq<string>, i: nat) returns (r: Root, p: seq<string>)
    requires Decomposed(root, parts) && i < |Crumbs(root, parts)|
    ensures LeadsTo(Crumbs(root, parts), i, r, p)
  {
    if i == 0 {
      r, p := Posix, [];
      assert Render(Posix, []) == "/";
      assert Crumbs(root, parts)[..1] == Crumbs(Posix, []);
    } else if i < |Top(root)| {
      r, p := root, [];
      CrumbsPrefix(root, parts, 0);
      assert parts[..0] == [];
    } else {
      var k := i - |Top(root)|;
      r, p := root, parts[..k + 1];
      CrumbAt(root, parts, k);
      RenderedNonempty(root, p);
      CrumbsPrefix(root, parts, k + 1);
    }
  }

  lemma CrumbAt(root: Root, parts: seq<string>, k: nat)
    requires k < |parts|
    ensures Crumbs(root, parts)[|Top(root)| + k] == Segment(parts[k], Render(root, parts[..k + 1]))
  {
    assert parts[..k + 1][k] == parts[k];
  }

  lemma RenderedNonempty(root: Root, parts: seq<string>)
    requires parts != []
    ensures Render(root, parts) != ""
  {
    assert Joined(Separator(root), parts) != "";
  }

  // ----- Which paths are which

  /** A word up to a separator or the end is a part. */
  lemma WordFirst(p: string, rest: string)
    requires IsPart(p) && (rest != [] ==> IsSeparator(rest[0]))
    ensures Parts(p + rest) == [p] + Parts(rest)
  {
    assert (p + rest)[0] == p[0];
    LeadingRun(p, rest, InWord);
  }

  /** The parts of a word are the word itself. */
  lemma PartsOfWord(p: string)
    requires IsPart(p)
    ensures Parts(p) == [p]
  {
    WordFirst(p, []);
    assert p + [] == p;
  }

  lemma LeadingWord(a: string) returns (p: string, rest: string)
    requires a != [] && !IsSeparator(a[0])
    ensures a == p + rest && IsPart(p) && |rest| < |a| && (rest != [] ==> IsSeparator(rest[0]))
  {
    var k := Leading(a, InWord);
    p, rest := a[..k], a[k..];
    CutBefore(a, k);
  }

  lemma WordAcross(p: string, rest: string, next: string)
    requires IsPart(p) && (rest != [] ==> IsSeparator(rest[0])) && next != [] && IsSeparator(next[0])
    ensures Parts((p + rest) + next) == [p] + Parts(rest + next) && Parts(p + rest) == [p] + Parts(rest)
  {
    WordFirst(p, rest);
    WordFirst(p, rest + next);
    Associative(p, rest, next);
  }

  /** A separator anywhere divides the parts. */
  lemma {:induction false} PartsAcross(a: string, sep: char, b: string)
    requires IsSeparator(sep)
    ensures Parts(a + ([sep] + b)) == Parts(a) + Parts(b)
    decreases |a|
  {
    if a == [] {
      assert a + ([sep] + b) == [sep] + b && ([sep] + b)[1..] == b;
    } else if IsSeparator(a[0]) {
      PartsAcross(a[1..], sep, b);
      assert (a + ([sep] + b))[1..] == a[1..] + ([sep] + b);
    } else {
      var p, rest := LeadingWord(a);
      PartsAcross(rest, sep, b);
      WordAcross(p, rest, [sep] + b);
    }
  }

  lemma {:induction false} PartsAfterSeparators(seps: string, rest: string)
    requires forall i | 0 <= i < |seps| :: IsSeparator(seps[i])
    ensures Parts(seps + rest) == Parts(rest)
  {
    if seps == [] {
      assert seps + rest == rest;
    } else {
      PartsAfterSeparators(seps[1..], rest);
      assert (seps + rest)[1..] == seps[1..] + rest;
    }
  }

  predicate AllSeparators(s: string) {
    forall i | 0 <= i < |s| :: IsSeparator(s[i])
  }

  predicate IsDrive(d: string) {
    |d| == 2 && IsLetter(d[0]) && d[1] == ':'
  }

  ghost predicate DriveShape(path: string, drive: string, seps: string, rest: string) {
    IsDrive(drive) && AllSeparators(seps) && OneLine(rest) && path == drive + (seps + rest)
  }

  lemma OneLineAfter(seps: string, rest: string)
    requires AllSeparators(seps) && OneLine(rest)
    ensures OneLine(AfterSeparators(seps + rest)) && Parts(AfterSeparators(seps + rest)) == Parts(rest)
  {
    PartsSkipSeparators(seps + rest);
    PartsAfterSeparators(seps, rest);
    assert OneLine(seps + rest);
  }

  /** A letter and a colon, any separators, one line: a drive, whatever separators it uses. */
  lemma DriveDecomposes(path: string, drive: string, seps: string, rest: string)
    requires DriveShape(path, drive, seps, rest)
    ensures Decompose(path) == (Drive(drive), Parts(rest))
  {
    assert path[..2] == drive && path[2..] == seps + rest && path[0] == drive[0] && path[1] == drive[1];
    OneLineAfter(seps, rest);
  }

  lemma DriveIff(path: string, drive: string)
    ensures Decompose(path).0 == Drive(drive) <==> exists seps, rest :: DriveShape(path, drive, seps, rest)
  {
    if Decompose(path).0 == Drive(drive) {
      var tail := path[2..];
      var k := Leading(tail, IsSeparator);
      CutBefore(path, 2);
      CutBefore(tail, k);
      assert DriveShape(path, drive, tail[..k], tail[k..]);
    }
    if seps, rest :| DriveShape(path, drive, seps, rest) {
      DriveDecomposes(path, drive, seps, rest);
    }
  }

  ghost predicate ShareShape(b: string, share: string, seps: string, rest: string) {
    && IsPart(share) && AllSeparators(seps) && OneLine(rest) && (seps == "" ==> rest == "")
    && b == share + (seps + rest)
  }

  /** The path after two backslashes. */
  ghost predicate ServerShape(a: string, server: string, sep: char, share: string, seps: string, rest: string) {
    && IsPart(server) && IsSeparator(sep) && exists b ::
      ShareShape(b, share, seps, rest) && a == server + ([sep] + b)
  }

  ghost predicate UncShape(path: string, server: string, sep: char, share: string, seps: string, rest: string) {
    exists a :: ServerShape(a, server, sep, share, seps, rest) && path == ['\\', '\\'] + a
  }

  lemma ShareHas(b: string, share: string, seps: string, rest: string)
    requires ShareShape(b, share, seps, rest)
    ensures ShareMatch(b) == Some((share, AfterSeparators(seps + rest)))
  {
    LeadingRun(share, seps + rest, InWord);
    OneLineAfter(seps, rest);
  }

  /** Two backslashes, a server, a separator and a share: a UNC path, whatever separators it uses. */
  lemma UncDecomposes(path: string, server: string, sep: char, share: string, seps: string, rest: string)
    requires UncShape(path, server, sep, share, seps, rest)
    ensures Decompose(path) == (Unc(server, share), Parts(rest))
  {
    var a :| ServerShape(a, server, sep, share, seps, rest) && path == ['\\', '\\'] + a;
    var b :| ShareShape(b, share, seps, rest) && a == server + ([sep] + b);
    assert path[2..] == a && path[0] == '\\' && path[1] == '\\';
    LeadingRun(server, [sep] + b, InWord);
    assert a[|server| + 1..] == ([sep] + b)[1..] == b;
    ShareHas(b, share, seps, rest);
    OneLineAfter(seps, rest);
    DecomposeUnc(path, server, share, AfterSeparators(seps + rest));
  }

  /** Every other path is a POSIX path, split at every separator. */
  lemma OtherwisePosix(path: string)
    requires !exists drive, seps, rest :: DriveShape(path, drive, seps, rest)
    requires !exists server, sep, share, seps, rest :: UncShape(path, server, sep, share, seps, rest)
    ensures Decompose(path) == (Posix, Parts(path))
  {
    if DriveMatch(path).Some? {
      DriveIff(path, path[..2]);
    } else if UncMatch(path).Some? {
      UncIsShaped(path);
    }
  }

  lemma SeparatorsFirst(tail: string) returns (seps: string, rest: string)
    requires OneLine(AfterSeparators(tail)) && (tail != [] ==> IsSeparator(tail[0]))
    ensures tail == seps + rest && AllSeparators(seps) && OneLine(rest) && (seps == "" ==> rest == "")
  {
    var n := Leading(tail, IsSeparator);
    seps, rest := tail[..n], tail[n..];
    CutBefore(tail, n);
  }

  lemma ShareFirst(b: string) returns (share: string, tail: string)
    requires ShareMatch(b).Some?
    ensures b == share + tail && IsPart(share)
    ensures OneLine(AfterSeparators(tail)) && (tail != [] ==> IsSeparator(tail[0]))
  {
    var m := Leading(b, InWord);
    share, tail := b[..m], b[m..];
    CutBefore(b, m);
  }

  lemma ShareIsShaped(b: string) returns (share: string, seps: string, rest: string)
    requires ShareMatch(b).Some?
    ensures ShareShape(b, share, seps, rest)
  {
    var tail;
    share, tail := ShareFirst(b);
    seps, rest := SeparatorsFirst(tail);
  }

  lemma ServerFirst(a: string) returns (server: string, sep: char, b: string)
    requires ServerMatch(a).Some?
    ensures IsPart(server) && IsSeparator(sep) && a == server + ([sep] + b) && ShareMatch(b).Some?
  {
    var k := Leading(a, InWord);
    server, sep, b := a[..k], a[k], a[k + 1..];
    CutAt(a, k);
  }

  lemma UncFirst(path: string) returns (a: string)
    requires UncMatch(path).Some?
    ensures path == ['\\', '\\'] + a && ServerMatch(a).Some?
  {
    a := path[2..];
  }

  lemma UncIsShaped(path: string)
    requires UncMatch(path).Some?
    ensures exists server, sep, share, seps, rest :: UncShape(path, server, sep, share, seps, rest)
  {
    var a := UncFirst(path);
    var server, sep, b := ServerFirst(a);
    var share, seps, rest := ShareIsShaped(b);
    assert ServerShape(a, server, sep, share, seps, rest);
    assert UncShape(path, server, sep, share, seps, rest);
  }

  /** What every breadcrumb of a drive or share starts with. */
  function RootText(root: Root): string {
    match root
    case Posix => ""
    case Drive(drive) => drive
    case Unc(server, share) => ['\\', '\\'] + server + ['\\'] + share
  }

  /** The breadcrumbs above the parts: the file system, and off POSIX the drive or share with a final backslash. */
  lemma TopTexts(path: string)
    requires path != ""
    ensures var root, segs := Decompose(path).0, Segments(path);
            && |segs| == (if root.Posix? then 1 else 2) + |Decompose(path).1|
            && segs[0] == Segment("/", "/")
            && (!root.Posix? ==> segs[1] == Segment(RootText(root) + ['\\'], RootText(root) + ['\\']))
  {}

  lemma JoinedNext(sep: char, parts: seq<string>, k: nat)
    requires k < |parts|
    ensures Joined(sep, parts[..k + 1]) == Joined(sep, parts[..k]) + [sep] + parts[k]
  {
    assert parts[..k + 1][..k] == parts[..k] && parts[..k + 1][k] == parts[k];
  }

  lemma Regrouped(a: string, b: string, c: string, d: string)
    ensures a + (b + c + d) == a + b + c + d
  {}

  lemma RenderedNext(root: Root, parts: seq<string>, k: nat)
    requires k < |parts|
    ensures Render(root, parts[..k + 1]) ==
            (if k == 0 then Prefix(root) else Render(root, parts[..k])) + [Separator(root)] + parts[k]
  {
    var sep := Separator(root);
    JoinedNext(sep, parts, k);
    Regrouped(Prefix(root), Joined(sep, parts[..k]), [sep], parts[k]);
    assert Prefix(root) + Joined(sep, parts[..0]) == Prefix(root);
  }

  lemma NextText(root: Root, parts: seq<string>, k: nat, before: string, here: Segment)
    requires k < |parts| && here == Segment(parts[k], Render(root, parts[..k + 1]))
    requires before == if k == 0 then Prefix(root) else Render(root, parts[..k])
    ensures Follows(here, before, Separator(root), parts[k])
  {
    RenderedNext(root, parts, k);
  }

  /** A breadcrumb names a part, and its path goes one separator and that part further. */
  predicate Follows(here: Segment, before: string, sep: char, part: string) {
    here.name == part && here.path == before + [sep] + part
  }

  lemma NextIn(segs: seq<Segment>, top: nat, root: Root, parts: seq<string>, k: nat)
    requires k < |parts| && |segs| == top + |parts|
    requires segs[top + k] == Segment(parts[k], Render(root, parts[..k + 1]))
    requires k > 0 ==> segs[top + k - 1].path == Render(root, parts[..k])
    ensures Follows(segs[top + k], if k == 0 then Prefix(root) else segs[top + k - 1].path, Separator(root), parts[k])
  {
    NextText(root, parts, k, if k == 0 then Prefix(root) else segs[top + k - 1].path, segs[top + k]);
  }

  lemma CrumbNext(root: Root, parts: seq<string>, k: nat)
    requires k < |parts|
    ensures var segs, top := Crumbs(root, parts), |Top(root)|;
            Follows(segs[top + k], if k == 0 then Prefix(root) else segs[top + k - 1].path, Separator(root), parts[k])
  {
    CrumbAt(root, parts, k);
    if k > 0 {
      CrumbAt(root, parts, k - 1);
    }
    NextIn(Crumbs(root, parts), |Top(root)|, root, parts, k);
  }

  lemma PrefixText(root: Root)
    ensures RootText(root) == Prefix(root) && Separator(root) == (if root.Posix? then '/' else '\\')
    ensures |Top(root)| == if root.Posix? then 1 else 2
  {}

  /** Every later breadcrumb names its part, and its path is the one before with a separator and the part. */
  lemma BreadcrumbTexts(path: string, k: nat)
    requires k < |Decompose(path).1|
    ensures var (root, parts) := Decompose(path);
            var segs, top := Segments(path), if root.Posix? then 1 else 2;
            Follows(segs[top + k], if k == 0 then RootText(root) else segs[top + k - 1].path,
                    if root.Posix? then '/' else '\\', parts[k])
  {
    var (root, parts) := Decompose(path);
    PrefixText(root);
    CrumbNext(root, parts, k);
  }
}
