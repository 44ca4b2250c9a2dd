/** The catalog's decision listing and the order it is in. */
module DecisionListing {
  import opened Strings

  /** A parsed decision; `details` stands for the fields that only filters read. */
  datatype Decision = Decision(path: string, id: string, details: string)

  // ----- The order

  predicate HasDate(id: string) {
    |id| > 10 && Digits(id[..4]) && id[4] == '-' && Digits(id[5..7]) && id[7] == '-' && Digits(id[8..10])
    && id[10] == '-'
  }

  /** Numbered decisions come first, then dated ones, then the rest; each class has its own second
      component, and the path breaks ties. */
  datatype Key = Numbered(number: nat, path: string) | Dated(id: string, path: string) | Named(id: string, path: string)

  function SortKey(d: Decision): Key {
    if HasDate(d.id) then Dated(d.id, d.path)
    else
      var k := Leading(d.id, IsDigit);
      if k > 0 && (k == |d.id| || d.id[k] == '-') then Numbered(Number(d.id[..k]), d.path)
      else Named(d.id, d.path)
  }

  /** Text is compared by its first differing character. */
  predicate TextLess(a: string, b: string) {
    b != [] && (a == [] || a[0] < b[0] || (a[0] == b[0] && TextLess(a[1..], b[1..])))
  }

  /** Tuples are compared in order; a number never meets a text, because their classes differ. */
  predicate Less(k: Key, l: Key) {
    match (k, l)
    case (Numbered(m, p), Numbered(n, q)) => m < n || (m == n && TextLess(p, q))
    case (Dated(i, p), Dated(j, q)) => TextLess(i, j) || (i == j && TextLess(p, q))
    case (Named(i, p), Named(j, q)) => TextLess(i, j) || (i == j && TextLess(p, q))
    case (Numbered(_, _), _) => true
    case (Dated(_, _), Named(_, _)) => true
    case _ => false
  }

  lemma {:induction false} TextOrder(a: string, b: string)
    ensures !(TextLess(a, b) && TextLess(b, a))
    ensures TextLess(a, b) || a == b || TextLess(b, a)
  {
    if a != [] {
      if b != [] {
        TextOrder(a[1..], b[1..]);
        assert a == [a[0]] + a[1..] && b == [b[0]] + b[1..];
      }
    }
  }

  lemma {:induction false} TextLessTransitive(a: string, b: string, c: string)
    requires TextLess(a, b) && TextLess(b, c)
    ensures TextLess(a, c)
  {
    if a != [] && a[0] == b[0] == c[0] {
      TextLessTransitive(a[1..], b[1..], c[1..]);
    }
  }

  lemma KeyOrder(k: Key, l: Key)
    ensures !(Less(k, l) && Less(l, k))
    ensures Less(k, l) || k == l || Less(l, k)
  {
    TextOrder(k.path, l.path);
    if !k.Numbered? && !l.Numbered? {
      TextOrder(k.id, l.id);
    }
  }

  lemma LessTransitive(k: Key, l: Key, m: Key)
    requires Less(k, l) && Less(l, m)
    ensures Less(k, m)
  {
    if TextLess(k.path, l.path) && TextLess(l.path, m.path) {
      TextLessTransitive(k.path, l.path, m.path);
    }
    if !k.Numbered? && !l.Numbered? && !m.Numbered? && TextLess(k.id, l.id) && TextLess(l.id, m.id) {
      TextLessTransitive(k.id, l.id, m.id);
    }
  }

  // ----- What the order is

  /** A date and a hyphen before the rest. */
  ghost predicate DatedShape(id: string, y: string, m: string, d: string, rest: string) {
    && |y| == 4 && |m| == 2 && |d| == 2 && Digits(y) && Digits(m) && Digits(d)
    && id == y + ("-" + (m + ("-" + (d + ("-" + rest)))))
  }

  lemma DatedIff(decision: Decision)
    ensures SortKey(decision).Dated? <==> exists y, m, d, rest :: DatedShape(decision.id, y, m, d, rest)
    ensures SortKey(decision).Dated? ==> SortKey(decision) == Dated(decision.id, decision.path)
  {
    var id := decision.id;
    if HasDate(id) {
      var y, m, d, rest := id[..4], id[5..7], id[8..10], id[11..];
      assert id == y + ("-" + (m + ("-" + (d + ("-" + rest)))));
      assert DatedShape(id, y, m, d, rest);
    }
    if y, m, d, rest :| DatedShape(id, y, m, d, rest) {
      assert id[..4] == y && id[4] == '-' && id[5..7] == m && id[7] == '-' && id[8..10] == d && id[10] == '-';
    }
  }

  /** A number alone or before a hyphen. */
  ghost predicate NumberedShape(id: string, digits: string, rest: string) {
    Digits(digits) && id == digits + rest && (rest == "" || rest[0] == '-')
  }

  lemma NumberedIff(decision: Decision, number: nat)
    ensures SortKey(decision) == Numbered(number, decision.path) <==>
            !SortKey(decision).Dated?
            && exists digits, rest :: NumberedShape(decision.id, digits, rest) && Number(digits) == number
    ensures SortKey(decision).Named? ==> SortKey(decision) == Named(decision.id, decision.path)
    ensures SortKey(decision).path == decision.path
  {
    var id := decision.id;
    if SortKey(decision) == Numbered(number, decision.path) {
      var k := Leading(id, IsDigit);
      CutBefore(id, k);
      assert NumberedShape(id, id[..k], id[k..]);
    }
    if digits, rest :| NumberedShape(id, digits, rest) && Number(digits) == number {
      LeadingRun(digits, rest, IsDigit);
    }
  }

  /** Text order is decided by the first difference; a text comes before its extensions. */
  ghost predicate DiffersAt(a: string, b: string, k: nat) {
    && k <= |a| && k < |b| && a[..k] == b[..k] && (k == |a| || a[k] < b[k])
  }

  lemma {:induction false} TextLessIff(a: string, b: string)
    ensures TextLess(a, b) <==> exists k :: DiffersAt(a, b, k)
  {
    if b != [] {
      if a == [] {
        assert DiffersAt(a, b, 0);
      } else if a[0] < b[0] {
        assert DiffersAt(a, b, 0);
      } else {
        TextLessIff(a[1..], b[1..]);
        if k :| DiffersAt(a[1..], b[1..], k) && a[0] == b[0] {
          DiffersLater(a, b, k);
        }
        if k :| DiffersAt(a, b, k) {
          DiffersSooner(a, b, k);
        }
      }
    }
  }

  lemma DiffersLater(a: string, b: string, k: nat)
    requires a != [] && b != [] && a[0] == b[0] && DiffersAt(a[1..], b[1..], k)
    ensures DiffersAt(a, b, k + 1)
  {
    assert a[..k + 1] == [a[0]] + a[1..][..k] && b[..k + 1] == [b[0]] + b[1..][..k];
  }

  lemma DiffersSooner(a: string, b: string, k: nat)
    requires a != [] && b != [] && !(a[0] < b[0]) && DiffersAt(a, b, k)
    ensures k > 0 && a[0] == b[0] && DiffersAt(a[1..], b[1..], k - 1)
  {
    assert k > 0;
    assert a[..k][0] == a[0] && b[..k][0] == b[0];
    assert a[..k][1..] == a[1..][..k - 1] && b[..k][1..] == b[1..][..k - 1];
  }

  /** Numbered decisions come before dated ones and dated ones before the rest; numbers ascend, other
      identifiers follow text order, and the path breaks ties. */
  lemma OrderIs(a: Decision, b: Decision)
    ensures var k, l := SortKey(a), SortKey(b);
            && (k.Numbered? && !l.Numbered? ==> Less(k, l) && !Less(l, k))
            && (k.Dated? && l.Named? ==> Less(k, l) && !Less(l, k))
            && (k.Numbered? && l.Numbered? ==>
                  (Less(k, l) <==> k.number < l.number || (k.number == l.number && TextLess(a.path, b.path))))
            && ((k.Dated? && l.Dated?) || (k.Named? && l.Named?) ==>
                  (Less(k, l) <==> TextLess(a.id, b.id) || (a.id == b.id && TextLess(a.path, b.path))))
  {}

  // ----- Listing

  ghost predicate Sorted(s: seq<Decision>) {
    forall i, j | 0 <= i < j < |s| :: !Less(SortKey(s[j]), SortKey(s[i]))
  }

  /** Insertion after everything that is not greater, as a stable sort does. */
  function Insert(d: Decision, s: seq<Decision>): (r: seq<Decision>)
    ensures multiset(r) == multiset(s) + multiset{d}
  {
    if s == [] then [d]
    else if Less(SortKey(d), SortKey(s[|s| - 1])) then
      assert s == s[..|s| - 1] + [s[|s| - 1]];
      Insert(d, s[..|s| - 1]) + [s[|s| - 1]]
    else s + [d]
  }

  lemma {:induction false} InsertSorts(d: Decision, s: seq<Decision>)
    requires Sorted(s)
    ensures Sorted(Insert(d, s))
  {
    var r := Insert(d, s);
    if s != [] {
      var n := |s| - 1;
      var last := s[n];
      if Less(SortKey(d), SortKey(last)) {
        var rest := Insert(d, s[..n]);
        InsertSorts(d, s[..n]);
        forall i | 0 <= i < |rest| ensures !Less(SortKey(last), SortKey(rest[i])) {
          assert rest[i] in multiset(rest);
          assert rest[i] == d || rest[i] in s[..n];
          KeyOrder(SortKey(d), SortKey(last));
        }
      } else {
        forall i | 0 <= i <= n ensures !Less(SortKey(d), SortKey(s[i])) {
          KeyOrder(SortKey(s[i]), SortKey(last));
          if Less(SortKey(d), SortKey(s[i])) {
            if SortKey(s[i]) != SortKey(last) {
              LessTransitive(SortKey(d), SortKey(s[i]), SortKey(last));
            }
          }
        }
      }
    }
  }

  function Sort(s: seq<Decision>): (r: seq<Decision>)
    ensures multiset(r) == multiset(s)
  {
    if s == [] then []
    else
      assert s == s[..|s| - 1] + [s[|s| - 1]];
      Insert(s[|s| - 1], Sort(s[..|s| - 1]))
  }

  lemma {:induction false} SortIsSorted(s: seq<Decision>)
    ensures Sorted(Sort(s))
  {
    if s != [] {
      SortIsSorted(s[..|s| - 1]);
      InsertSorts(s[|s| - 1], Sort(s[..|s| - 1]));
    }
  }

  function Kept(keep: Decision -> bool, documents: seq<Decision>): seq<Decision> {
    if documents == [] then []
    else
      var n := |documents| - 1;
      Kept(keep, documents[..n]) + (if keep(documents[n]) then [documents[n]] else [])
  }

  /** The listing is a sorted rearrangement of the kept documents. */
  method FilterDecisions(documents: seq<Decision>, keep: Decision -> bool) returns (listing: seq<Decision>)
    ensures Sorted(listing) && multiset(listing) == multiset(Kept(keep, documents))
  {
    var result := [];
    for k := 0 to |documents|
      invariant result == Kept(keep, documents[..k])
    {
      assert documents[..k + 1][..k] == documents[..k];
      if keep(documents[k]) {
        result := result + [documents[k]];
      }
    }
    assert documents[..|documents|] == documents;
    listing := Sort(result);
    SortIsSorted(result);
  }

  // ----- The order of the sources does not matter

  ghost predicate DistinctPaths(s: seq<Decision>) {
    forall i, j | 0 <= i < j < |s| :: s[i].path != s[j].path
  }

  lemma StrictlyBefore(s: seq<Decision>, i: nat, j: nat)
    requires Sorted(s) && DistinctPaths(s) && i < j < |s|
    ensures Less(SortKey(s[i]), SortKey(s[j]))
  {
    KeyOrder(SortKey(s[i]), SortKey(s[j]));
  }

  /** Two sorted listings of the same documents have the same first element. */
  lemma SameFirst(a: seq<Decision>, b: seq<Decision>)
    requires Sorted(a) && Sorted(b) && DistinctPaths(a) && DistinctPaths(b)
    requires (forall d :: d in a <==> d in b) && a != []
    ensures b != [] && a[0] == b[0]
  {
    assert a[0] in b;
    var j :| 0 <= j < |b| && b[j] == a[0];
    assert b[0] in a;
    var i :| 0 <= i < |a| && a[i] == b[0];
    if j > 0 && i > 0 {
      StrictlyBefore(b, 0, j);
    }
  }

  lemma {:induction false} ListingIsUnique(a: seq<Decision>, b: seq<Decision>)
    requires Sorted(a) && Sorted(b) && DistinctPaths(a) && DistinctPaths(b)
    requires forall d :: d in a <==> d in b
    ensures a == b
  {
    if b != [] {
      Nonempty(a, b);
    }
    if a != [] {
      SameFirst(a, b);
      SameRest(a, b);
      ListingIsUnique(a[1..], b[1..]);
      assert a == [a[0]] + a[1..] && b == [b[0]] + b[1..];
    }
  }

  lemma Nonempty(a: seq<Decision>, b: seq<Decision>)
    requires b != [] && forall d :: d in a <==> d in b
    ensures a != []
  {
    assert b[0] in a;
  }

  lemma SameRest(a: seq<Decision>, b: seq<Decision>)
    requires a != [] && b != [] && a[0] == b[0]
    requires DistinctPaths(a) && DistinctPaths(b)
    requires forall d :: d in a <==> d in b
    ensures forall d :: d in a[1..] <==> d in b[1..]
    ensures DistinctPaths(a[1..]) && DistinctPaths(b[1..])
  {
    forall d ensures d in a[1..] <==> d in b[1..] {
      RestIs(a, d);
      RestIs(b, d);
    }
  }

  lemma RestIs(s: seq<Decision>, d: Decision)
    requires s != [] && DistinctPaths(s)
    ensures d in s[1..] <==> d in s && d != s[0]
  {
    assert s == [s[0]] + s[1..];
    assert forall i | 0 < i < |s| :: s[i].path != s[0].path;
    assert forall i | 0 <= i < |s[1..]| :: s[1..][i] == s[i + 1];
  }

  lemma {:induction false} KeptAre(keep: Decision -> bool, documents: seq<Decision>)
    requires DistinctPaths(documents)
    ensures forall d :: d in Kept(keep, documents) <==> d in documents && keep(d)
    ensures DistinctPaths(Kept(keep, documents))
  {
    if documents != [] {
      var n := |documents| - 1;
      var init, last := documents[..n], documents[n];
      KeptAre(keep, init);
      assert documents == init + [last];
      var before := Kept(keep, init);
      forall i | 0 <= i < |before| ensures before[i].path != last.path {
        assert before[i] in init;
      }
    }
  }

  /** A rearrangement of documents with distinct paths has distinct paths. */
  lemma Rearranged(s: seq<Decision>, t: seq<Decision>)
    requires multiset(s) == multiset(t) && DistinctPaths(s)
    ensures DistinctPaths(t)
    ensures forall d :: d in s <==> d in t
  {
    assert forall d :: d in s <==> d in multiset(s);
    assert forall d :: d in t <==> d in multiset(t);
    forall i, j | 0 <= i < j < |t| ensures t[i].path != t[j].path {
      assert t[i] in s && t[j] in s;
      if t[i] == t[j] {
        TwiceCounts(t, i, j);
        OnceCounts(s, t[i]);
      }
    }
  }

  lemma TwiceCounts(t: seq<Decision>, i: nat, j: nat)
    requires i < j < |t| && t[i] == t[j]
    ensures multiset(t)[t[i]] >= 2
  {
    assert t == t[..j] + t[j..];
    assert t[i] in t[..j] && t[j] in t[j..];
  }

  lemma {:induction false} OnceCounts(s: seq<Decision>, d: Decision)
    requires DistinctPaths(s)
    ensures multiset(s)[d] <= 1
  {
    if s != [] {
      OnceCounts(s[1..], d);
      RestIs(s, d);
      assert s == [s[0]] + s[1..];
      assert multiset(s)[d] == multiset([s[0]])[d] + multiset(s[1..])[d];
    }
  }

  /** The listing depends only on the set of documents, not on the order they were loaded in. */
  lemma ListingDependsOnlyOnTheSet(
    keep: Decision -> bool, documents: seq<Decision>, listing: seq<Decision>,
    documents': seq<Decision>, listing': seq<Decision>)
    requires DistinctPaths(documents) && DistinctPaths(documents')
    requires forall d :: d in documents <==> d in documents'
    requires Sorted(listing) && multiset(listing) == multiset(Kept(keep, documents))
    requires Sorted(listing') && multiset(listing') == multiset(Kept(keep, documents'))
    ensures listing == listing'
  {
    KeptAre(keep, documents);
    KeptAre(keep, documents');
    Rearranged(Kept(keep, documents), listing);
    Rearranged(Kept(keep, documents'), listing');
    ListingIsUnique(listing, listing');
  }
}
