/** The string form of a runtime-artifact descriptor, and when it is ambiguous. */
module ArtifactDescriptor {
  import opened Strings

  const NUL: char := '\0'

  const MAX_UINT64 := 0xFFFF_FFFF_FFFF_FFFF

  datatype Descriptor = Descriptor(version: string, total: nat, sha256: string)

  function Encode(id: string, d: Descriptor): string {
    id + [NUL] + d.version + [NUL] + Decimal(d.total) + [NUL] + d.sha256
  }

  lemma DecimalHasNoNul(n: nat)
    ensures NUL !in Decimal(n) && Decimal(n) != []
  {
    DecimalIsDigits(n);
  }

  /** A string splits at its last NUL in one way. */
  lemma LastNul(a: string, b: string, a': string, b': string)
    requires a + [NUL] + b == a' + [NUL] + b'
    requires NUL !in b && NUL !in b'
    ensures a == a' && b == b'
  {
    var s := a + [NUL] + b;
    assert s[|a|] == NUL && s[|a'|] == NUL;
    assert forall j | |a| < j < |s| :: s[j] == b[j - |a| - 1];
    assert forall j | |a'| < j < |s| :: s[j] == b'[j - |a'| - 1];
    assert a == s[..|a|] && a' == s[..|a'|];
    assert b == s[|a| + 1..] && b' == s[|a'| + 1..];
  }

  /** Splits `s` at its last NUL. */
  lemma {:induction false} SplitLast(s: string) returns (a: string, b: string)
    requires NUL in s
    ensures s == a + [NUL] + b && NUL !in b
  {
    var n := |s| - 1;
    if s[n] == NUL {
      a, b := s[..n], [];
    } else {
      a, b := SplitLast(s[..n]);
      b := b + [s[n]];
    }
  }

  /** Some NUL-separated component after the first is a canonical uint64 decimal. */
  ghost predicate HasInnerDecimal(version: string) {
    exists p: string, t: nat, tail: string ::
      t <= MAX_UINT64 && InnerDecimalAt(version, p, t, tail)
  }

  ghost predicate InnerDecimalAt(version: string, p: string, t: nat, tail: string) {
    && version == p + [NUL] + Decimal(t) + tail
    && (tail == [] || tail[0] == NUL)
  }

  /** The descriptor's own fields, without the artifact identifier that is compared separately. */
  function Fields(d: Descriptor): string {
    d.version + [NUL] + Decimal(d.total) + [NUL] + d.sha256
  }

  lemma EncodeFields(id: string, d: Descriptor, e: Descriptor)
    ensures Encode(id, d) == Encode(id, e) <==> Fields(d) == Fields(e)
  {
    assert Encode(id, d) == (id + [NUL]) + Fields(d);
    assert Encode(id, e) == (id + [NUL]) + Fields(e);
    assert Fields(d) == Encode(id, d)[|id| + 1..] && Fields(e) == Encode(id, e)[|id| + 1..];
  }

  /** Descriptors with NUL-free digests encode injectively, whatever their versions hold. */
  lemma NulFreeDigestsAgree(id: string, d: Descriptor, e: Descriptor)
    requires Encode(id, d) == Encode(id, e)
    requires '\0' !in d.sha256 && '\0' !in e.sha256
    ensures d == e
  {
    EncodeFields(id, d, e);
    LastNul(d.version + [NUL] + Decimal(d.total), d.sha256, e.version + [NUL] + Decimal(e.total), e.sha256);
    DecimalHasNoNul(d.total);
    DecimalHasNoNul(e.total);
    LastNul(d.version, Decimal(d.total), e.version, Decimal(e.total));
    DecimalInjective(d.total, e.total);
  }

  lemma AmbiguousMeansInnerDecimal(id: string, d: Descriptor, e: Descriptor)
    requires NUL !in d.sha256 && e.total <= MAX_UINT64
    requires Encode(id, d) == Encode(id, e) && d != e
    ensures HasInnerDecimal(d.version)
  {
    EncodeFields(id, d, e);
    if NUL !in e.sha256 {
      NulFreeDigestsAgree(id, d, e);
    } else {
      var head := e.version + [NUL] + Decimal(e.total);
      var x, y := SplitLast(e.sha256);
      assert Fields(e) == (head + [NUL] + x) + [NUL] + y;
      LastNul(d.version + [NUL] + Decimal(d.total), d.sha256, head + [NUL] + x, y);
      DecimalHasNoNul(d.total);
      if NUL !in x {
        LastNul(d.version, Decimal(d.total), head, x);
        assert InnerDecimalAt(d.version, e.version, e.total, []);
      } else {
        var u, w := SplitLast(x);
        assert head + [NUL] + x == (head + [NUL] + u) + [NUL] + w;
        LastNul(d.version, Decimal(d.total), head + [NUL] + u, w);
        assert InnerDecimalAt(d.version, e.version, e.total, [NUL] + u);
      }
    }
  }

  lemma InnerDecimalMeansAmbiguous(id: string, d: Descriptor, p: string, t: nat, tail: string) returns (e: Descriptor)
    requires InnerDecimalAt(d.version, p, t, tail)
    ensures e != d && e.total == t && Encode(id, d) == Encode(id, e)
  {
    var rest := tail + [NUL] + Decimal(d.total) + [NUL] + d.sha256;
    assert rest == [NUL] + rest[1..];
    e := Descriptor(p, t, rest[1..]);
    assert Fields(d) == p + [NUL] + Decimal(t) + rest;
    assert Fields(e) == p + [NUL] + Decimal(t) + ([NUL] + rest[1..]);
    assert |e.version| < |d.version|;
    EncodeFields(id, d, e);
  }

  ghost predicate Ambiguous(id: string, d: Descriptor) {
    exists e: Descriptor :: e.total <= MAX_UINT64 && Encode(id, d) == Encode(id, e) && d != e
  }

  /** The encoding of a descriptor with a NUL-free digest pins all its fields exactly when no inner
      component of its version reads as a decimal. */
  lemma AmbiguousIff(id: string, d: Descriptor)
    requires NUL !in d.sha256
    ensures Ambiguous(id, d) <==> HasInnerDecimal(d.version)
  {
    if Ambiguous(id, d) {
      var e: Descriptor :| e.total <= MAX_UINT64 && Encode(id, d) == Encode(id, e) && d != e;
      AmbiguousMeansInnerDecimal(id, d, e);
    }
    if HasInnerDecimal(d.version) {
      var p: string, t: nat, tail: string :| t <= MAX_UINT64 && InnerDecimalAt(d.version, p, t, tail);
      var e := InnerDecimalMeansAmbiguous(id, d, p, t, tail);
    }
  }

  lemma InnerDecimalHasNul(version: string)
    requires HasInnerDecimal(version)
    ensures NUL in version
  {
    var p: string, t: nat, tail: string :| t <= MAX_UINT64 && InnerDecimalAt(version, p, t, tail);
    assert version[|p|] == NUL;
  }

  /** In particular a version without NUL is safe. */
  lemma NulFreeVersionPins(id: string, d: Descriptor, e: Descriptor)
    requires NUL !in d.version && NUL !in d.sha256 && e.total <= MAX_UINT64
    requires Encode(id, d) == Encode(id, e)
    ensures d == e
  {
    if d != e {
      AmbiguousMeansInnerDecimal(id, d, e);
      InnerDecimalHasNul(d.version);
    }
  }
}
