/** Frontmatter of specification documents: the parser both tools share, the metadata contract, and
    the two tools' verdicts on one file. */
module SpecMetadata {
  import opened Wrappers
  import opened PythonText
  import opened Strings

  // ----- Paths

  datatype Kind = Unknown | Guide | Template | Product | Requirement | SystemDesign | SystemIndex | Legacy

  function IndexOf(parts: seq<string>, x: string, from: nat): (k: nat)
    requires from <= |parts|
    ensures from <= k <= |parts|
    ensures k < |parts| ==> parts[k] == x
    ensures forall i | from <= i < k :: parts[i] != x
    decreases |parts| - from
  {
    if from == |parts| || parts[from] == x then from else IndexOf(parts, x, from + 1)
  }

  function ClassifyPath(parts: seq<string>): (Kind, Option<string>) {
    var k := IndexOf(parts, "specs", 0);
    if k == |parts| || k + 1 == |parts| then (Unknown, None)
    else
      var inside := parts[k + 1..];
      if inside[0] == "guide" then (Guide, None)
      else if inside[0] == "templates" then (Template, None)
      else if inside[0] == "product" then (Product, None)
      else if |inside| >= 3 && inside[1] == "requirements" then (Requirement, Some(inside[0]))
      else if |inside| >= 3 && inside[1] == "system-design" then (SystemDesign, Some(inside[0]))
      else if |inside| == 2 && inside[1] in ["README.md", "glossary.md"] then (SystemIndex, Some(inside[0]))
      else (Legacy, None)
  }

  const RESERVED := {"guide", "templates", "product"}

  /** The kind of a path by what follows its first `specs`, and the system it belongs to. */
  lemma ClassifiedBy(before: seq<string>, inside: seq<string>)
    requires "specs" !in before
    ensures var (kind, system) := ClassifyPath(before + (["specs"] + inside));
            && (kind == Unknown <==> inside == [])
            && (kind == Guide <==> inside != [] && inside[0] == "guide")
            && (kind == Template <==> inside != [] && inside[0] == "templates")
            && (kind == Product <==> inside != [] && inside[0] == "product")
            && (kind == Requirement <==> |inside| >= 3 && inside[0] !in RESERVED && inside[1] == "requirements")
            && (kind == SystemDesign <==> |inside| >= 3 && inside[0] !in RESERVED && inside[1] == "system-design")
            && (kind == SystemIndex <==>
                  |inside| == 2 && inside[0] !in RESERVED && inside[1] in {"README.md", "glossary.md"})
            && system == if kind in {Requirement, SystemDesign, SystemIndex} then Some(inside[0]) else None
  {
    var parts := before + (["specs"] + inside);
    assert forall i | 0 <= i < |before| :: parts[i] == before[i];
    assert parts[|before|] == "specs";
    IndexIs(parts, "specs", |before|);
    assert parts[|before| + 1..] == inside;
  }

  lemma IndexIs(parts: seq<string>, x: string, k: nat)
    requires k < |parts| && parts[k] == x && forall i | 0 <= i < k :: parts[i] != x
    ensures IndexOf(parts, x, 0) == k
  {}

  lemma OutsideSpecs(parts: seq<string>)
    requires "specs" !in parts
    ensures ClassifyPath(parts) == (Unknown, None)
  {
    assert IndexOf(parts, "specs", 0) == |parts|;
  }

  // ----- Frontmatter

  datatype Field = Scalar(text: string) | Items(items: seq<string>)

  type Metadata = map<string, Field>

  datatype ParseError = NoFrontmatter | Unclosed | MixedField | Unsupported

  datatype Parsed = Parsed(metadata: Metadata, end: nat) | Failed(line: nat, error: ParseError)

  const FENCE := "---"

  /** A `  - value` line, with its value. */
  function ListItem(line: string): Option<string> {
    match AfterHyphen(line)
    case None => None
    case Some(rest) => Some(Unquote(Strip(rest)))
  }

  function AfterHyphen(line: string): Option<string> {
    var a := Leading(line, IsSpace);
    if a == 0 || a == |line| || line[a] != '-' || Leading(line[a + 1..], IsSpace) == 0 then None
    else Some(line[a + 1..])
  }

  predicate IsKeyChar(c: char) {
    'a' <= c <= 'z' || '0' <= c <= '9' || c == '_' || c == '-'
  }

  /** A `key: value` line, with its key and stripped value. */
  function KeyLine(line: string): Option<(string, string)> {
    match AroundColon(line)
    case None => None
    case Some((key, rest)) => Some((key, Strip(rest)))
  }

  function AroundColon(line: string): Option<(string, string)> {
    var k := Leading(line, IsKeyChar);
    if k == 0 || !('a' <= line[0] <= 'z') || k == |line| || line[k] != ':' then None
    else Some((line[..k], line[k + 1..]))
  }

  /** The parser between two lines: what it has read and which key still collects list items. */
  datatype Reading = Reading(metadata: Metadata, current: Option<string>)

  datatype LineResult = Read(reading: Reading) | Rejected(error: ParseError)

  function ReadLine(r: Reading, line: string): LineResult {
    var item := ListItem(line);
    if item.Some? && r.current.Some? then
      var key := r.current.value;
      var field := if key in r.metadata then r.metadata[key] else Items([]);
      if field.Scalar? then Rejected(MixedField)
      else Read(r.(metadata := r.metadata[key := Items(field.items + [item.value])]))
    else
      match KeyLine(line)
      case None => if Blank(line) then Read(r) else Rejected(Unsupported)
      case Some((key, value)) =>
        if value == "[]" then Read(Reading(r.metadata[key := Items([])], None))
        else if value != "" then Read(Reading(r.metadata[key := Scalar(Unquote(value))], None))
        else Read(Reading(r.metadata[key := Items([])], Some(key)))
  }

  datatype LinesResult = AllRead(reading: Reading) | RejectedAt(line: nat, error: ParseError)

  /** Reading several lines one after another, the first of which has number `n`. */
  function Fold(step: (Reading, string) -> LineResult, r: Reading, lines: seq<string>, n: nat): LinesResult
    decreases |lines|
  {
    if lines == [] then AllRead(r)
    else
      match step(r, lines[0])
      case Rejected(e) => RejectedAt(n, e)
      case Read(s) => Fold(step, s, lines[1..], n + 1)
  }

  function ReadLines(r: Reading, lines: seq<string>, n: nat): LinesResult {
    Fold(ReadLine, r, lines, n)
  }

  function Parse(lines: seq<string>, require: bool): Parsed {
    if lines == [] || lines[0] != FENCE then
      if require then Failed(1, NoFrontmatter) else Parsed(map[], 0)
    else
      var end := IndexOf(lines, FENCE, 1);
      if end == |lines| then Failed(1, Unclosed)
      else
        match ReadLines(Reading(map[], None), lines[1..end], 2)
        case RejectedAt(n, e) => Failed(n, e)
        case AllRead(r) => Parsed(r.metadata, end + 1)
  }

  lemma ReadHead(r: Reading, lines: seq<string>, k: nat, end: nat)
    requires k < end <= |lines|
    ensures ReadLines(r, lines[k..end], k + 1) ==
            match ReadLine(r, lines[k])
            case Rejected(e) => RejectedAt(k + 1, e)
            case Read(s) => ReadLines(s, lines[k + 1..end], k + 2)
  {
    assert lines[k..end][0] == lines[k] && lines[k..end][1..] == lines[k + 1..end];
  }

  /** One turn of the parser's loop. */
  method UpdateFrom(metadata0: Metadata, current0: Option<string>, line: string)
    returns (metadata: Metadata, current: Option<string>, error: Option<ParseError>)
    ensures ReadLine(Reading(metadata0, current0), line)
         == if error.None? then Read(Reading(metadata, current)) else Rejected(error.value)
  {
    metadata, current, error := metadata0, current0, None;
    var item := ListItem(line);
    if item.Some? && current.Some? {
      var key := current.value;
      var field := if key in metadata then metadata[key] else Items([]);
      if field.Scalar? {
        return metadata, current, Some(MixedField);
      }
      metadata := metadata[key := Items(field.items + [item.value])];
    } else {
      var pair := KeyLine(line);
      if pair.None? {
        if !Blank(line) {
          return metadata, current, Some(Unsupported);
        }
      } else {
        var (key, value) := pair.value;
        if value == "[]" {
          metadata, current := metadata[key := Items([])], None;
        } else if value != "" {
          metadata, current := metadata[key := Scalar(Unquote(value))], None;
        } else {
          metadata, current := metadata[key := Items([])], Some(key);
        }
      }
    }
  }

  /** The parser as the tool runs it, line by line. */
  method ParseFrontmatter(text: string, require: bool) returns (p: Parsed)
    ensures p == Parse(SplitLines(text), require)
  {
    var lines := SplitLines(text);
    if lines == [] || lines[0] != FENCE {
      if require {
        return Failed(1, NoFrontmatter);
      }
      return Parsed(map[], 0);
    }
    var end := IndexOf(lines, FENCE, 1);
    if end == |lines| {
      return Failed(1, Unclosed);
    }
    var metadata: Metadata := map[];
    var current: Option<string> := None;
    var k := 1;
    while k < end
      invariant 1 <= k <= end
      invariant ReadLines(Reading(map[], None), lines[1..end], 2) ==
                ReadLines(Reading(metadata, current), lines[k..end], k + 1)
    {
      ReadHead(Reading(metadata, current), lines, k, end);
      var error;
      metadata, current, error := UpdateFrom(metadata, current, lines[k]);
      if error.Some? {
        return Failed(k + 1, error.value);
      }
      k := k + 1;
    }
    p := Parsed(metadata, end + 1);
  }

  // ----- What one line means

  predicate IsKey(key: string) {
    key != "" && 'a' <= key[0] <= 'z' && forall i | 0 <= i < |key| :: IsKeyChar(key[i])
  }

  lemma KeyCharIff(c: char)
    ensures IsKeyChar(c) <==> 97 <= c as int <= 122 || 48 <= c as int <= 57 || c == '-' || c == '_'
  {}

  lemma HyphenLineHas(a: string, rest: string)
    requires Gap(a) && rest != "" && IsSpace(rest[0])
    ensures AfterHyphen(a + ("-" + rest)) == Some(rest)
  {
    var line := a + ("-" + rest);
    LeadingRun(a, "-" + rest, IsSpace);
    assert line[|a| + 1..] == rest && line[|a|] == '-';
  }

  lemma ItemLineHas(a: string, b: string, v: string)
    requires Gap(a) && Gap(b)
    ensures ListItem(a + ("-" + (b + v))) == Some(Unquote(Strip(v)))
  {
    HyphenLineHas(a, b + v);
    TrimDropsLeading(b, v, IsSpace);
  }

  lemma ItemLinePlaces(line: string) returns (i: nat, k: nat)
    requires AfterHyphen(line).Some?
    ensures 0 < i < |line| && line[i] == '-' && 0 < k <= |line| - i - 1
    ensures Blank(line[..i]) && Blank(line[i + 1..][..k])
  {
    i := Leading(line, IsSpace);
    k := Leading(line[i + 1..], IsSpace);
  }

  lemma ShapeFrom(line: string, i: nat, k: nat)
    requires i < |line| && k <= |line| - i - 1
    ensures line == line[..i] + ([line[i]] + (line[i + 1..][..k] + line[i + 1..][k..]))
  {
    CutAt(line, i);
    CutBefore(line[i + 1..], k);
  }

  lemma ItemLineShape(line: string) returns (a: string, b: string, v: string)
    requires AfterHyphen(line).Some?
    ensures Gap(a) && Gap(b) && line == a + ("-" + (b + v))
  {
    var i, k := ItemLinePlaces(line);
    ShapeFrom(line, i, k);
    a, b, v := line[..i], line[i + 1..][..k], line[i + 1..][k..];
  }

  /** A list item is an indented hyphen, a gap and a value, which is stripped and unquoted. */
  lemma ListItemIff(line: string, value: string)
    ensures ListItem(line) == Some(value) <==>
            exists a, b, v :: Gap(a) && Gap(b) && line == a + ("-" + (b + v)) && value == Unquote(Strip(v))
  {
    if ListItem(line) == Some(value) {
      var a, b, v := ItemLineShape(line);
      ItemLineHas(a, b, v);
    }
    if a, b, v :| Gap(a) && Gap(b) && line == a + ("-" + (b + v)) && value == Unquote(Strip(v)) {
      ItemLineHas(a, b, v);
    }
  }

  lemma KeyLineHas(key: string, rest: string)
    requires IsKey(key)
    ensures KeyLine(key + (":" + rest)) == Some((key, Strip(rest)))
  {
    LeadingRun(key, ":" + rest, IsKeyChar);
    var line := key + (":" + rest);
    assert (":" + rest)[1..] == rest && line[|key|..][1..] == line[|key| + 1..];
    assert line[0] == key[0] && line[|key|] == ':';
  }

  lemma AroundColonIs(line: string, key: string, rest: string)
    requires AroundColon(line) == Some((key, rest))
    ensures IsKey(key) && line == key + (":" + rest)
  {
    CutAt(line, Leading(line, IsKeyChar));
  }

  lemma KeyLineShape(line: string, key: string, value: string) returns (rest: string)
    requires KeyLine(line) == Some((key, value))
    ensures IsKey(key) && line == key + (":" + rest) && value == Strip(rest)
  {
    rest := AroundColon(line).value.1;
    AroundColonIs(line, key, rest);
  }

  /** A field is a key, a colon and a value, which is stripped. */
  lemma KeyLineIff(line: string, key: string, value: string)
    ensures KeyLine(line) == Some((key, value)) <==>
            IsKey(key) && exists rest :: line == key + (":" + rest) && value == Strip(rest)
  {
    if KeyLine(line) == Some((key, value)) {
      var rest := KeyLineShape(line, key, value);
    }
    if IsKey(key) {
      if rest :| line == key + (":" + rest) && value == Strip(rest) {
        KeyLineHas(key, rest);
      }
    }
  }

  /** What a line does: an item joins the open list; a field closes it and sets its key to an empty
      list, to an unquoted scalar or to a list that its items will fill; blank lines do nothing; any
      other line is refused. */
  lemma LineDoes(r: Reading, line: string)
    requires ListOpen(r)
    ensures var item, field, result := ListItem(line), KeyLine(line), ReadLine(r, line);
            if item.Some? && r.current.Some? then
              var key := r.current.value;
              result == Read(r.(metadata := r.metadata[key := Items(r.metadata[key].items + [item.value])]))
            else if field.Some? then
              var (key, value) := field.value;
              if value == "[]" then result == Read(Reading(r.metadata[key := Items([])], None))
              else if value == "" then result == Read(Reading(r.metadata[key := Items([])], Some(key)))
              else result == Read(Reading(r.metadata[key := Scalar(Unquote(value))], None))
            else if Blank(line) then result == Read(r)
            else result == Rejected(Unsupported)
  {}

  lemma {:induction false} FoldStops(
    step: (Reading, string) -> LineResult, r: Reading, lines: seq<string>, n: nat, k: nat, e: ParseError)
    requires k < |lines| && Fold(step, r, lines[..k], n).AllRead?
    requires step(Fold(step, r, lines[..k], n).reading, lines[k]) == Rejected(e)
    decreases k
    ensures Fold(step, r, lines, n) == RejectedAt(n + k, e)
  {
    if k > 0 {
      assert lines[..k][0] == lines[0] && lines[..k][1..] == lines[1..][..k - 1] && lines[1..][k - 1] == lines[k];
      FoldStops(step, step(r, lines[0]).reading, lines[1..], n + 1, k - 1, e);
    }
  }

  /** Reading stops at the first refused line and names it. */
  lemma StopsAtTheFirstRefused(r: Reading, lines: seq<string>, n: nat, k: nat, e: ParseError)
    requires k < |lines| && ReadLines(r, lines[..k], n).AllRead?
    requires ReadLine(ReadLines(r, lines[..k], n).reading, lines[k]) == Rejected(e)
    ensures ReadLines(r, lines, n) == RejectedAt(n + k, e)
  {
    FoldStops(ReadLine, r, lines, n, k, e);
  }

  /** Frontmatter is what stands between a first line and the next line of three hyphens. */
  lemma FrontmatterIs(lines: seq<string>, require: bool)
    ensures lines == [] || lines[0] != "---" ==>
              Parse(lines, require) == if require then Failed(1, NoFrontmatter) else Parsed(map[], 0)
    ensures lines != [] && lines[0] == "---" && "---" !in lines[1..] ==> Parse(lines, require) == Failed(1, Unclosed)
    ensures forall body, rest | lines == ["---"] + (body + (["---"] + rest)) && "---" !in body ::
              Parse(lines, require) ==
              match ReadLines(Reading(map[], None), body, 2)
              case RejectedAt(n, e) => Failed(n, e)
              case AllRead(r) => Parsed(r.metadata, |body| + 2)
  {
    if lines != [] && lines[0] == "---" && "---" !in lines[1..] {
      forall i | 1 <= i < |lines| ensures lines[i] != FENCE {
        assert lines[i] == lines[1..][i - 1];
      }
    }
    forall body, rest | lines == ["---"] + (body + (["---"] + rest)) && "---" !in body
      ensures IndexOf(lines, FENCE, 1) == |body| + 1 && lines[1..|body| + 1] == body
    {
      FencedBody(body, rest);
      assert lines == [FENCE] + body + [FENCE] + rest;
    }
  }

  /** The key that collects items maps to a list. */
  ghost predicate ListOpen(r: Reading) {
    r.current.Some? ==> r.current.value in r.metadata && r.metadata[r.current.value].Items?
  }

  lemma ListStaysOpen(r: Reading, line: string)
    requires ListOpen(r)
    ensures ReadLine(r, line).Read? ==> ListOpen(ReadLine(r, line).reading)
    ensures ReadLine(r, line) != Rejected(MixedField)
  {}

  lemma {:induction false} LinesNeverMix(r: Reading, lines: seq<string>, n: nat)
    requires ListOpen(r)
    decreases |lines|
    ensures ReadLines(r, lines, n).RejectedAt? ==> ReadLines(r, lines, n).error != MixedField
  {
    if lines != [] {
      ListStaysOpen(r, lines[0]);
      if ReadLine(r, lines[0]).Read? {
        LinesNeverMix(ReadLine(r, lines[0]).reading, lines[1..], n + 1);
      }
    }
  }

  /** The parser's mixed scalar/list error cannot happen, on any text. */
  lemma MixedFieldIsUnreachable(lines: seq<string>, require: bool)
    ensures Parse(lines, require).Failed? ==> Parse(lines, require).error != MixedField
  {
    if lines != [] && lines[0] == FENCE {
      var end := IndexOf(lines, FENCE, 1);
      if end < |lines| {
        LinesNeverMix(Reading(map[], None), lines[1..end], 2);
      }
    }
  }

  // ----- Writing and reading back

  datatype Entry = Entry(key: string, field: Field)

  /** A value on one line that survives stripping and unquoting. */
  predicate Plain(s: string) {
    OneLine(s) && (s != [] ==> !IsSpace(s[0]) && !IsSpace(s[|s| - 1]) && !IsQuote(s[0]) && !IsQuote(s[|s| - 1]))
  }

  predicate Writable(e: Entry) {
    && e.key != [] && 'a' <= e.key[0] <= 'z' && (forall i | 0 <= i < |e.key| :: IsKeyChar(e.key[i]))
    && match e.field
       case Scalar(text) => Plain(text) && text != "" && text != "[]"
       case Items(items) => forall i | 0 <= i < |items| :: Plain(items[i])
  }

  function ItemLines(items: seq<string>): seq<string> {
    seq(|items|, i requires 0 <= i < |items| => ItemLine(items[i]))
  }

  function ItemLine(item: string): string {
    "  - " + item
  }

  lemma ItemLinesCons(items: seq<string>)
    requires items != []
    ensures ItemLines(items) == [ItemLine(items[0])] + ItemLines(items[1..])
  {}

  function EntryLines(e: Entry): seq<string> {
    match e.field
    case Scalar(text) => [e.key + ": " + text]
    case Items(items) => [e.key + ":"] + ItemLines(items)
  }

  function Body(entries: seq<Entry>): seq<string> {
    if entries == [] then [] else EntryLines(entries[0]) + Body(entries[1..])
  }

  function Written(entries: seq<Entry>): seq<string> {
    [FENCE] + Body(entries) + [FENCE]
  }

  /** What the entries mean: a later entry for a key replaces an earlier one. */
  function Meaning(base: Metadata, entries: seq<Entry>): Metadata
    decreases |entries|
  {
    if entries == [] then base else Meaning(base[entries[0].key := entries[0].field], entries[1..])
  }

  lemma PlainSurvives(s: string)
    requires Plain(s)
    ensures Strip(" " + s) == s && Unquote(s) == s
  {
    TrimDropsLeading(" ", s, IsSpace);
    TrimKeeps(s, IsSpace);
    TrimKeeps(s, IsQuote);
  }

  ghost predicate Collecting(r: Reading) {
    r.current.Some? && r.current.value in r.metadata && r.metadata[r.current.value].Items?
  }

  ghost function Collected(r: Reading, items: seq<string>): Reading
    requires Collecting(r)
  {
    r.(metadata := r.metadata[r.current.value := Items(r.metadata[r.current.value].items + items)])
  }

  lemma ItemLineReads(item: string)
    requires Plain(item)
    ensures ListItem(ItemLine(item)) == Some(item)
  {
    var line := ItemLine(item);
    LeadingIs(line, IsSpace, 2);
    assert line[3..] == " " + item;
    assert Leading(line[3..], IsSpace) > 0;
    PlainSurvives(item);
  }

  lemma ReadItem(r: Reading, line: string, item: string)
    requires ListItem(line) == Some(item) && Collecting(r)
    ensures ReadLine(r, line) == Read(Collected(r, [item]))
  {}

  lemma ReadKey(key: string, rest: string)
    requires key != [] && 'a' <= key[0] <= 'z' && forall i | 0 <= i < |key| :: IsKeyChar(key[i])
    ensures var line := key + ":" + rest;
            ListItem(line).None? && KeyLine(line) == Some((key, Strip(rest)))
  {
    var line := key + ":" + rest;
    assert line[0] == key[0] && !IsSpace(line[0]);
    LeadingIs(line, IsSpace, 0);
    assert forall i | 0 <= i < |key| :: line[i] == key[i];
    LeadingIs(line, IsKeyChar, |key|);
    assert line[..|key|] == key && line[|key| + 1..] == rest;
  }

  lemma CollectedTwice(r: Reading, a: seq<string>, b: seq<string>)
    requires Collecting(r)
    ensures Collecting(Collected(r, a)) && Collected(Collected(r, a), b) == Collected(r, a + b)
    ensures Collected(r, []) == r
  {
    var items := r.metadata[r.current.value].items;
    assert items + a + b == items + (a + b) && items + [] == items;
    assert r.metadata[r.current.value := Items(items)] == r.metadata;
  }

  lemma {:induction false} ReadItems(r: Reading, items: seq<string>, n: nat)
    requires forall i | 0 <= i < |items| :: Plain(items[i])
    requires Collecting(r)
    decreases |items|
    ensures Fold(ReadLine, r, ItemLines(items), n) == AllRead(Collected(r, items))
  {
    if items == [] {
      CollectedTwice(r, [], []);
    } else {
      var line, rest := ItemLine(items[0]), items[1..];
      var s := Collected(r, [items[0]]);
      ItemLineReads(items[0]);
      ReadItem(r, line, items[0]);
      CollectedTwice(r, [items[0]], rest);
      ItemLinesCons(items);
      FoldCons(ReadLine, r, s, line, ItemLines(rest), n);
      ReadItems(s, rest, n + 1);
      assert items == [items[0]] + rest;
    }
  }

  lemma {:induction false} FoldConcat(
    step: (Reading, string) -> LineResult, r: Reading, a: seq<string>, b: seq<string>, n: nat)
    requires Fold(step, r, a, n).AllRead?
    decreases |a|
    ensures Fold(step, r, a + b, n) == Fold(step, Fold(step, r, a, n).reading, b, n + |a|)
  {
    if a == [] {
      assert a + b == b;
    } else {
      assert (a + b)[1..] == a[1..] + b;
      FoldConcat(step, step(r, a[0]).reading, a[1..], b, n + 1);
    }
  }

  lemma FoldCons(step: (Reading, string) -> LineResult, r: Reading, s: Reading, line: string, rest: seq<string>, n: nat)
    requires step(r, line) == Read(s)
    ensures Fold(step, r, [line] + rest, n) == Fold(step, s, rest, n + 1)
  {
    assert ([line] + rest)[1..] == rest;
  }

  lemma ReadKeyLine(r: Reading, line: string, key: string, value: string)
    requires ListItem(line).None? && KeyLine(line) == Some((key, value)) && value != "[]"
    ensures ReadLine(r, line) ==
            Read(if value == "" then Reading(r.metadata[key := Items([])], Some(key))
                 else Reading(r.metadata[key := Scalar(Unquote(value))], None))
  {}

  lemma ReadScalar(r: Reading, key: string, text: string)
    requires Writable(Entry(key, Scalar(text)))
    ensures ReadLine(r, key + ": " + text) == Read(Reading(r.metadata[key := Scalar(text)], None))
  {
    var line := key + ": " + text;
    assert line == key + ":" + (" " + text);
    ReadKey(key, " " + text);
    PlainSurvives(text);
    ReadKeyLine(r, line, key, text);
  }

  lemma ReadListKey(r: Reading, key: string)
    requires Writable(Entry(key, Items([])))
    ensures ReadLine(r, key + ":") == Read(Reading(r.metadata[key := Items([])], Some(key)))
  {
    assert key + ":" == key + ":" + "";
    ReadKey(key, "");
    ReadKeyLine(r, key + ":", key, "");
  }

  lemma ReadEntry(r: Reading, e: Entry, n: nat)
    requires Writable(e)
    ensures ReadLines(r, EntryLines(e), n).AllRead?
    ensures ReadLines(r, EntryLines(e), n).reading.metadata == r.metadata[e.key := e.field]
  {
    match e.field
    case Scalar(text) => ReadScalarEntry(r, e, n);
    case Items(items) => ReadListEntry(r, e, n);
  }

  lemma ReadScalarEntry(r: Reading, e: Entry, n: nat)
    requires Writable(e) && e.field.Scalar?
    ensures ReadLines(r, EntryLines(e), n) == AllRead(Reading(r.metadata[e.key := e.field], None))
  {
    var line := e.key + ": " + e.field.text;
    ReadScalar(r, e.key, e.field.text);
    var s := Reading(r.metadata[e.key := e.field], None);
    assert EntryLines(e) == [line] + [];
    FoldCons(ReadLine, r, s, line, [], n);
  }

  lemma ReadListEntry(r: Reading, e: Entry, n: nat)
    requires Writable(e) && e.field.Items?
    ensures ReadLines(r, EntryLines(e), n).AllRead?
    ensures ReadLines(r, EntryLines(e), n).reading.metadata == r.metadata[e.key := e.field]
  {
    ReadKeyAndItems(r, e.key, e.field.items, n);
    assert EntryLines(e) == [e.key + ":"] + ItemLines(e.field.items);
  }

  lemma ReadKeyAndItems(r: Reading, key: string, items: seq<string>, n: nat)
    requires Writable(Entry(key, Items(items)))
    ensures ReadLines(r, [key + ":"] + ItemLines(items), n)
         == AllRead(Reading(r.metadata[key := Items(items)], Some(key)))
  {
    var s := Reading(r.metadata[key := Items([])], Some(key));
    ReadListKey(r, key);
    ReadListLines(r, s, key + ":", items, n);
    assert [] + items == items;
    assert Collected(s, items).metadata == r.metadata[key := Items(items)];
  }

  /** A list's key line and its items, whatever the key line says. */
  lemma ReadListLines(r: Reading, s: Reading, line: string, items: seq<string>, n: nat)
    requires ReadLine(r, line) == Read(s) && Collecting(s) && forall i | 0 <= i < |items| :: Plain(items[i])
    ensures ReadLines(r, [line] + ItemLines(items), n) == AllRead(Collected(s, items))
  {
    FoldCons(ReadLine, r, s, line, ItemLines(items), n);
    ReadItems(s, items, n + 1);
  }

  lemma {:induction false} ReadBody(r: Reading, entries: seq<Entry>, n: nat)
    requires forall i | 0 <= i < |entries| :: Writable(entries[i])
    decreases |entries|
    ensures ReadLines(r, Body(entries), n).AllRead?
    ensures ReadLines(r, Body(entries), n).reading.metadata == Meaning(r.metadata, entries)
  {
    if entries != [] {
      var first, rest := EntryLines(entries[0]), Body(entries[1..]);
      ReadEntry(r, entries[0], n);
      FoldConcat(ReadLine, r, first, rest, n);
      ReadBody(ReadLines(r, first, n).reading, entries[1..], n + |first|);
    }
  }

  lemma {:induction false} BodyHasNoFence(entries: seq<Entry>)
    requires forall i | 0 <= i < |entries| :: Writable(entries[i])
    decreases |entries|
    ensures FENCE !in Body(entries)
  {
    if entries != [] {
      BodyHasNoFence(entries[1..]);
      var lines := EntryLines(entries[0]);
      forall i | 0 <= i < |lines| ensures lines[i] != FENCE {
        assert lines[i][0] != '-';
      }
    }
  }

  lemma FencedBody(body: seq<string>, rest: seq<string>)
    requires FENCE !in body
    ensures var lines := [FENCE] + body + [FENCE] + rest;
            IndexOf(lines, FENCE, 1) == |body| + 1 && lines[1..|body| + 1] == body
  {
    var lines := [FENCE] + body + [FENCE] + rest;
    assert lines[|body| + 1] == FENCE;
    assert forall i | 1 <= i <= |body| :: lines[i] == body[i - 1];
    assert lines[1..|body| + 1] == body;
  }

  lemma {:induction false} BodyIsLines(entries: seq<Entry>)
    requires forall i | 0 <= i < |entries| :: Writable(entries[i])
    ensures forall i | 0 <= i < |Body(entries)| :: OneLine(Body(entries)[i])
  {
    if entries != [] {
      BodyIsLines(entries[1..]);
      EntryIsLines(entries[0]);
    }
  }

  lemma EntryIsLines(e: Entry)
    requires Writable(e)
    ensures forall i | 0 <= i < |EntryLines(e)| :: OneLine(EntryLines(e)[i])
  {
    assert OneLine(e.key + ":");
    if e.field.Scalar? {
      assert OneLine(e.key + ": " + e.field.text);
    } else {
      forall i | 0 <= i < |e.field.items| ensures OneLine(ItemLine(e.field.items[i])) {
        assert Plain(e.field.items[i]);
      }
    }
  }

  lemma FencedParse(body: seq<string>, rest: seq<string>, require: bool)
    requires FENCE !in body
    ensures Parse([FENCE] + body + [FENCE] + rest, require) ==
            match ReadLines(Reading(map[], None), body, 2)
            case RejectedAt(n, e) => Failed(n, e)
            case AllRead(r) => Parsed(r.metadata, |body| + 2)
  {
    FencedBody(body, rest);
  }

  lemma LinesReadBack(entries: seq<Entry>, rest: seq<string>, require: bool)
    requires forall i | 0 <= i < |entries| :: Writable(entries[i])
    ensures Parse(Written(entries) + rest, require) == Parsed(Meaning(map[], entries), |Body(entries)| + 2)
  {
    BodyHasNoFence(entries);
    FencedParse(Body(entries), rest, require);
    ReadBody(Reading(map[], None), entries, 2);
  }

  /** Reading back the text of written frontmatter gives the entries' meaning, whatever follows it. */
  lemma WrittenReadsBack(entries: seq<Entry>, rest: string, require: bool)
    requires forall i | 0 <= i < |entries| :: Writable(entries[i])
    ensures Parse(SplitLines(JoinLines(Written(entries)) + rest), require)
         == Parsed(Meaning(map[], entries), |Body(entries)| + 2)
  {
    BodyIsLines(entries);
    JoinedLinesSplit(Written(entries), rest);
    LinesReadBack(entries, SplitLines(rest), require);
  }

  // ----- The metadata contract

  datatype Issue =
    | MissingFrontmatter | WrongOwner | WrongStatus | WrongVersion | WrongMigration | NoRequirementList

  function JoinItems(items: seq<string>): string
    requires items != []
  {
    if |items| == 1 then items[0] else items[0] + ", " + JoinItems(items[1..])
  }

  function MetadataText(m: Metadata, key: string): Option<string> {
    if key !in m then None
    else match m[key]
      case Scalar(text) => Some(Strip(text))
      case Items(items) => if items == [] then None else Some(JoinItems(items))
  }

  const VALID_REQUIREMENT_STATUSES := ["draft", "active", "deprecated"]
  const VALID_DESIGN_STATUSES := ["draft", "current", "superseded"]
  const VALID_SYSTEM_STATUSES := ["draft", "active", "retired"]
  const VALID_MIGRATION_STATUSES := ["in_progress", "complete"]

  predicate OneOf(value: Option<string>, valid: seq<string>) {
    value.Some? && value.value in valid
  }

  predicate UnderContract(kind: Kind) {
    kind in [Requirement, SystemDesign, SystemIndex]
  }

  function ValidateMetadata(kind: Kind, system: Option<string>, m: Metadata, hasFrontmatter: bool): seq<Issue> {
    if !UnderContract(kind) then []
    else if !hasFrontmatter then [MissingFrontmatter]
    else
      var status := MetadataText(m, "status");
      var valid := if kind == Requirement then VALID_REQUIREMENT_STATUSES
                   else if kind == SystemDesign then VALID_DESIGN_STATUSES
                   else VALID_SYSTEM_STATUSES;
      (if system.Some? && MetadataText(m, "system") != system then [WrongOwner] else [])
      + (if OneOf(status, valid) then [] else [WrongStatus])
      + (if kind == SystemIndex then
           (if MetadataText(m, "specification_version") == Some("1") then [] else [WrongVersion])
           + (if OneOf(MetadataText(m, "migration"), VALID_MIGRATION_STATUSES) then [] else [WrongMigration])
         else if kind == SystemDesign && !("requirements" in m && m["requirements"].Items?) then [NoRequirementList]
         else [])
  }

  // ----- What metadata in order is

  /** Joining puts a comma and a space between items. */
  lemma {:induction false} JoinedItems(items: seq<string>, last: string)
    requires items != []
    ensures JoinItems([last]) == last && JoinItems(items + [last]) == JoinItems(items) + ", " + last
  {
    if |items| > 1 {
      JoinedItems(items[1..], last);
      assert (items + [last])[1..] == items[1..] + [last];
    } else {
      assert (items + [last])[1..] == [last];
    }
  }

  /** The field's text: a stripped scalar, or the joined items of a nonempty list. */
  predicate Says(m: Metadata, key: string, text: string) {
    key in m
    && if m[key].Scalar? then Strip(m[key].text) == text else m[key].items != [] && JoinItems(m[key].items) == text
  }

  lemma SaysIff(m: Metadata, key: string, text: string)
    ensures MetadataText(m, key) == Some(text) <==> Says(m, key, text)
  {}

  /** What the contract asks of each kind of page, spelled out. */
  predicate StatusInOrder(kind: Kind, m: Metadata) {
    match kind
    case Requirement => Says(m, "status", "draft") || Says(m, "status", "active") || Says(m, "status", "deprecated")
    case SystemDesign => Says(m, "status", "draft") || Says(m, "status", "current") || Says(m, "status", "superseded")
    case SystemIndex => Says(m, "status", "draft") || Says(m, "status", "active") || Says(m, "status", "retired")
    case _ => true
  }

  predicate MetadataInOrder(kind: Kind, system: Option<string>, m: Metadata) {
    && (system.Some? ==> Says(m, "system", system.value))
    && StatusInOrder(kind, m)
    && (kind == SystemIndex ==>
          && Says(m, "specification_version", "1")
          && (Says(m, "migration", "in_progress") || Says(m, "migration", "complete")))
    && (kind == SystemDesign ==> "requirements" in m && m["requirements"].Items?)
  }

  lemma StatusIff(kind: Kind, system: Option<string>, m: Metadata)
    requires kind in {Requirement, SystemDesign, SystemIndex}
    ensures WrongStatus in ValidateMetadata(kind, system, m, true) <==> !StatusInOrder(kind, m)
  {
    SaysIff(m, "status", "draft");
    SaysIff(m, "status", "active");
    SaysIff(m, "status", "deprecated");
    SaysIff(m, "status", "current");
    SaysIff(m, "status", "superseded");
    SaysIff(m, "status", "retired");
  }

  lemma OwnerIff(kind: Kind, system: Option<string>, m: Metadata)
    requires kind in {Requirement, SystemDesign, SystemIndex}
    ensures WrongOwner in ValidateMetadata(kind, system, m, true) <==>
            system.Some? && !Says(m, "system", system.value)
  {
    if system.Some? {
      SaysIff(m, "system", system.value);
    }
  }

  lemma IndexIff(kind: Kind, system: Option<string>, m: Metadata)
    requires kind in {Requirement, SystemDesign, SystemIndex}
    ensures var issues := ValidateMetadata(kind, system, m, true);
            && (WrongVersion in issues <==> kind == SystemIndex && !Says(m, "specification_version", "1"))
            && (WrongMigration in issues <==>
                  kind == SystemIndex && !Says(m, "migration", "in_progress") && !Says(m, "migration", "complete"))
  {
    SaysIff(m, "specification_version", "1");
    SaysIff(m, "migration", "in_progress");
    SaysIff(m, "migration", "complete");
  }

  lemma DesignIff(kind: Kind, system: Option<string>, m: Metadata)
    requires kind in {Requirement, SystemDesign, SystemIndex}
    ensures var issues := ValidateMetadata(kind, system, m, true);
            && (NoRequirementList in issues <==>
                  kind == SystemDesign && !("requirements" in m && m["requirements"].Items?))
            && MissingFrontmatter !in issues
  {}

  /** Each issue is raised exactly by its own fault. */
  lemma IssuesAre(kind: Kind, system: Option<string>, m: Metadata)
    requires kind in {Requirement, SystemDesign, SystemIndex}
    ensures var issues := ValidateMetadata(kind, system, m, true);
            && (WrongOwner in issues <==> system.Some? && !Says(m, "system", system.value))
            && (WrongStatus in issues <==> !StatusInOrder(kind, m))
            && (WrongVersion in issues <==> kind == SystemIndex && !Says(m, "specification_version", "1"))
            && (WrongMigration in issues <==>
                  kind == SystemIndex && !Says(m, "migration", "in_progress") && !Says(m, "migration", "complete"))
            && (NoRequirementList in issues <==>
                  kind == SystemDesign && !("requirements" in m && m["requirements"].Items?))
            && MissingFrontmatter !in issues
  {
    OwnerIff(kind, system, m);
    StatusIff(kind, system, m);
    IndexIff(kind, system, m);
    DesignIff(kind, system, m);
  }

  lemma NoIssueIff(kind: Kind, system: Option<string>, m: Metadata)
    requires kind in {Requirement, SystemDesign, SystemIndex}
    ensures ValidateMetadata(kind, system, m, true) == [] <==>
            forall issue :: issue !in ValidateMetadata(kind, system, m, true)
  {
    var issues := ValidateMetadata(kind, system, m, true);
    if issues != [] {
      assert issues[0] in issues;
    }
  }

  lemma InOrderIff(kind: Kind, system: Option<string>, m: Metadata)
    requires kind in {Requirement, SystemDesign, SystemIndex}
    ensures ValidateMetadata(kind, system, m, true) == [] <==> MetadataInOrder(kind, system, m)
  {
    NoIssueIff(kind, system, m);
    IssuesAre(kind, system, m);
  }

  /** No issue is raised exactly when the metadata is in order; a page under the contract without
      frontmatter has one issue, and other pages have none. */
  lemma MetadataInOrderIff(kind: Kind, system: Option<string>, m: Metadata)
    ensures kind in {Requirement, SystemDesign, SystemIndex} ==>
              && (ValidateMetadata(kind, system, m, true) == [] <==> MetadataInOrder(kind, system, m))
              && ValidateMetadata(kind, system, m, false) == [MissingFrontmatter]
    ensures kind !in {Requirement, SystemDesign, SystemIndex} ==>
              forall fenced :: ValidateMetadata(kind, system, m, fenced) == []
  {
    if kind in {Requirement, SystemDesign, SystemIndex} {
      InOrderIff(kind, system, m);
    }
  }

  // ----- The two tools

  datatype PageViolation = FrontmatterViolation(line: nat, error: ParseError) | MetadataViolation(issue: Issue)

  predicate IsIndexPage(parts: seq<string>) {
    parts != [] && parts[|parts| - 1] == "README.md"
  }

  /** What the linter checks metadata of: requirements, designs and system index pages. */
  predicate Governed(parts: seq<string>) {
    var (kind, _) := ClassifyPath(parts);
    kind in [Requirement, SystemDesign] || (kind == SystemIndex && IsIndexPage(parts))
  }

  /** The linter's frontmatter and metadata violations of one governed file. */
  function LinterViolations(parts: seq<string>, lines: seq<string>): seq<PageViolation> {
    var (kind, system) := ClassifyPath(parts);
    match Parse(lines, true)
    case Failed(n, e) => [FrontmatterViolation(n, e)]
    case Parsed(m, _) =>
      var issues := ValidateMetadata(kind, system, m, true);
      seq(|issues|, i requires 0 <= i < |issues| => MetadataViolation(issues[i]))
  }

  datatype CatalogKind = SystemPage | Glossary | Other(kind: Kind)

  /** The catalog's own kind of a path, or nothing for files that are not catalog sources. */
  function CatalogKindOf(parts: seq<string>): Option<CatalogKind> {
    var (kind, _) := ClassifyPath(parts);
    if kind in [Guide, Template, Unknown] then None
    else if kind == SystemIndex then (if IsIndexPage(parts) then Some(SystemPage) else Some(Glossary))
    else Some(Other(kind))
  }

  /** The kind under which the shared contract judges a catalog kind: a glossary is under none. */
  function ContractKind(k: CatalogKind): Kind {
    match k
    case SystemPage => SystemIndex
    case Glossary => Unknown
    case Other(kind) => kind
  }

  /** The catalog refuses the file because of its frontmatter or metadata. */
  predicate CatalogRejects(parts: seq<string>, lines: seq<string>) {
    var (_, system) := ClassifyPath(parts);
    match Parse(lines, false)
    case Failed(_, _) => true
    case Parsed(m, _) =>
      match CatalogKindOf(parts)
      case None => true
      case Some(k) =>
        ValidateMetadata(ContractKind(k), system, m, lines != [] && lines[0] == FENCE) != []
  }

  /** The page's frontmatter is readable and its metadata in order. */
  ghost predicate PageInOrder(parts: seq<string>, lines: seq<string>) {
    var (kind, system) := ClassifyPath(parts);
    Parse(lines, true).Parsed? && MetadataInOrder(kind, system, Parse(lines, true).metadata)
  }

  /** The linter looks at requirements, designs and README pages of systems. */
  lemma GovernedIff(parts: seq<string>)
    ensures Governed(parts) <==>
            var kind := ClassifyPath(parts).0;
            || kind == Requirement || kind == SystemDesign
            || (kind == SystemIndex && parts[|parts| - 1] == "README.md")
  {}

  /** The linter has no violation of a governed page exactly when it is in order. */
  lemma LinterAccepts(parts: seq<string>, lines: seq<string>)
    requires Governed(parts)
    ensures LinterViolations(parts, lines) == [] <==> PageInOrder(parts, lines)
  {
    GovernedIff(parts);
    if Parse(lines, true).Parsed? {
      var (kind, system) := ClassifyPath(parts);
      MetadataInOrderIff(kind, system, Parse(lines, true).metadata);
    }
  }

  /** The linter reports unreadable frontmatter where reading stopped, and nothing else then; otherwise
      it reports each metadata issue and nothing else. */
  lemma LinterReports(parts: seq<string>, lines: seq<string>)
    ensures var (kind, system) := ClassifyPath(parts);
            match Parse(lines, true)
            case Failed(n, e) => LinterViolations(parts, lines) == [FrontmatterViolation(n, e)]
            case Parsed(m, _) =>
              forall v :: v in LinterViolations(parts, lines) <==>
                            v.MetadataViolation? && v.issue in ValidateMetadata(kind, system, m, true)
  {
    var (kind, system) := ClassifyPath(parts);
    if Parse(lines, true).Parsed? {
      var issues := ValidateMetadata(kind, system, Parse(lines, true).metadata, true);
      forall issue | issue in issues ensures MetadataViolation(issue) in LinterViolations(parts, lines) {
        var i :| 0 <= i < |issues| && issues[i] == issue;
        assert LinterViolations(parts, lines)[i] == MetadataViolation(issue);
      }
    }
  }

  /** The catalog refuses what is not one of its sources, frontmatter that it cannot read, and governed
      pages that are not in order; it takes every other page, with frontmatter or without. */
  lemma CatalogRejectsIff(parts: seq<string>, lines: seq<string>)
    ensures CatalogRejects(parts, lines) <==>
            || ClassifyPath(parts).0 in {Guide, Template, Unknown}
            || Parse(lines, false).Failed?
            || (Governed(parts) && !PageInOrder(parts, lines))
  {
    if Governed(parts) {
      GovernedKind(parts);
      ToolsAgree(parts, lines);
      assert Parse(lines, false).Failed? ==> Parse(lines, true).Failed?;
    }
  }

  /** Both tools judge every governed file alike, although one requires frontmatter while parsing and
      the other only afterwards: they accept it exactly when it is in order. */
  lemma ToolsAgree(parts: seq<string>, lines: seq<string>)
    requires Governed(parts)
    ensures CatalogRejects(parts, lines) <==> LinterViolations(parts, lines) != []
    ensures CatalogRejects(parts, lines) <==> !PageInOrder(parts, lines)
  {
    LinterAccepts(parts, lines);
    GovernedKind(parts);
    var (kind, system) := ClassifyPath(parts);
    if lines == [] || lines[0] != FENCE {
      assert Parse(lines, true).Failed?;
      assert ValidateMetadata(kind, system, map[], false) == [MissingFrontmatter];
    } else {
      assert Parse(lines, true) == Parse(lines, false);
    }
  }

  /** The catalog judges a governed file under its own kind. */
  lemma GovernedKind(parts: seq<string>)
    requires Governed(parts)
    ensures CatalogKindOf(parts).Some? && ContractKind(CatalogKindOf(parts).value) == ClassifyPath(parts).0
    ensures UnderContract(ClassifyPath(parts).0)
  {}
}
