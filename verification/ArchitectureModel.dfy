/** Findings of the architecture rules and the JSON values around them. Findings are inputs here:
    the rules that produce them are not modelled. */
module ArchitectureModel {
  import opened Wrappers

  datatype Json =
    | Null
    | Bool(b: bool)
    | Number(n: int)
    | Text(s: string)
    | List(items: seq<Json>)
    | Object(fields: map<string, Json>)

  /** An identity stands for its own canonical JSON text, which determines it. */
  type Identity = map<string, Json>

  datatype Finding = Finding(rule: string, path: string, line: nat, identity: Identity, message: string)

  /** What a ledger entry can register: a declaration in a file, with its marker. */
  datatype Declaration = Declaration(path: string, name: string, marker: string)

  function Field(fields: map<string, Json>, key: string): Json {
    if key in fields then fields[key] else Null
  }

  function Declared(f: Finding): Option<Declaration> {
    match (Field(f.identity, "declaration"), Field(f.identity, "marker"))
    case (Text(name), Text(marker)) => Some(Declaration(f.path, name, marker))
    case _ => None
  }

  predicate Ambiguous(f: Finding) {
    Field(f.identity, "ambiguous") == Bool(true)
  }

  /** A finding that a ledger entry for declaration `d` can stand for. */
  predicate Registrable(f: Finding, d: Declaration) {
    !Ambiguous(f) && Declared(f) == Some(d)
  }

  /** The last registrable finding for `d`: a later finding replaces an earlier one. */
  function LastRegistrable(findings: seq<Finding>, d: Declaration): Option<Finding> {
    if findings == [] then None
    else
      var f := findings[|findings| - 1];
      if Registrable(f, d) then Some(f) else LastRegistrable(findings[..|findings| - 1], d)
  }

  lemma {:induction false} LastIsRegistrable(findings: seq<Finding>, d: Declaration)
    ensures var f := LastRegistrable(findings, d);
            if f.Some? then f.value in findings && Registrable(f.value, d)
            else forall g | g in findings :: !Registrable(g, d)
  {
    if findings != [] && !Registrable(findings[|findings| - 1], d) {
      LastIsRegistrable(findings[..|findings| - 1], d);
      assert findings == findings[..|findings| - 1] + [findings[|findings| - 1]];
    }
  }

  // ----- Counting

  function Occurrences<T(==)>(s: seq<T>, x: T): nat {
    if s == [] then 0
    else Occurrences(s[..|s| - 1], x) + (if s[|s| - 1] == x then 1 else 0)
  }

  lemma {:induction false} OccursIff<T>(s: seq<T>, x: T)
    ensures Occurrences(s, x) > 0 <==> x in s
  {
    if s != [] {
      OccursIff(s[..|s| - 1], x);
      assert s == s[..|s| - 1] + [s[|s| - 1]];
    }
  }

  lemma {:induction false} OccursAgainIff<T>(s: seq<T>, i: nat)
    requires i < |s|
    ensures Occurrences(s, s[i]) > 1 <==> exists j | 0 <= j < |s| && j != i :: s[j] == s[i]
  {
    var n := |s| - 1;
    var rest := s[..n];
    OccursIff(rest, s[i]);
    if i < n {
      OccursAgainIff(rest, i);
      assert rest[i] == s[i];
      assert s[n] == s[i] ==> n != i;
    }
    assert forall j | 0 <= j < n :: rest[j] == s[j];
  }

  /** Counts the present values, as a dictionary of counters does. */
  method Tally<T(==)>(xs: seq<Option<T>>) returns (counts: map<T, nat>)
    ensures forall x :: (if x in counts then counts[x] else 0) == Occurrences(xs, Some(x))
  {
    counts := map[];
    for k := 0 to |xs|
      invariant forall x :: (if x in counts then counts[x] else 0) == Occurrences(xs[..k], Some(x))
    {
      assert xs[..k + 1][..k] == xs[..k];
      if xs[k].Some? {
        var x := xs[k].value;
        counts := counts[x := (if x in counts then counts[x] else 0) + 1];
      }
    }
    assert xs[..|xs|] == xs;
  }
}
