/** Artifact streams of providers that go on after an error: what is then forwarded, and exactly when
    a completed transfer still keeps its promise. */
module ArtifactRetries {
  import opened Wrappers
  import opened ArtifactDescriptor
  import opened ArtifactStream

  /** One call of the validator: the chunk and what sending it downstream would answer. */
  datatype Call = Call(chunk: Option<Chunk>, sent: bool)

  /** The validator with what can be told from outside: the bytes forwarded, the bytes counted but
      not forwarded, the descriptor in force and the chunk that completed the transfer. */
  datatype Ledger = Ledger(
    state: Progress, forwarded: seq<Byte>, lost: nat, head: Option<Descriptor>, closing: Option<Chunk>)

  const FRESH := Ledger(START, [], 0, None, None)

  /** Errors raised after the chunk has been counted. */
  predicate Counting(err: Option<Error>) {
    err.Some? && err.value in {ExceedsDeclaredSize, Mismatch, FinalMissing, SendFailed}
  }

  function Bytes(call: Call): seq<Byte> {
    if call.chunk.None? then [] else call.chunk.value.data
  }

  ghost predicate Captures(id: string, v: Progress, call: Call) {
    SequenceError(id, v, call.chunk).None? && v.index == 0 && DescriptorError(call.chunk.value).None?
  }

  ghost function Next(id: string, sha: Hash, l: Ledger, call: Call): Ledger {
    var (w, err) := Accept(id, sha, l.state, call.chunk, call.sent);
    Ledger(w,
           if err.None? then l.forwarded + Bytes(call) else l.forwarded,
           if Counting(err) then l.lost + |Bytes(call)| else l.lost,
           if Captures(id, l.state, call) then Some(call.chunk.value.Described()) else l.head,
           if w.final && !l.state.final then call.chunk else l.closing)
  }

  type Stepper = (Ledger, Call) -> Ledger

  ghost function Fold(step: Stepper, calls: seq<Call>): Ledger {
    if calls == [] then FRESH else step(Fold(step, calls[..|calls| - 1]), calls[|calls| - 1])
  }

  ghost function Accepting(id: string, sha: Hash): Stepper {
    (l, call) => Next(id, sha, l, call)
  }

  /** The calls one after another, whatever each of them returned. */
  ghost function After(id: string, sha: Hash, calls: seq<Call>): Ledger {
    Fold(Accepting(id, sha), calls)
  }

  lemma FoldNext(step: Stepper, calls: seq<Call>, call: Call)
    ensures Fold(step, calls + [call]) == step(Fold(step, calls), call)
  {
    assert (calls + [call])[..|calls|] == calls;
  }

  /** The validator's own state after the same calls. */
  method AcceptRegardless(v: Validator, calls: seq<Call>) returns (complete: bool)
    requires v.Progressed() == START
    modifies v
    ensures v.Progressed() == After(v.artifactID, v.sha, calls).state
    ensures complete == v.final
  {
    for k := 0 to |calls|
      invariant v.Progressed() == After(v.artifactID, v.sha, calls[..k]).state
    {
      FoldNext(Accepting(v.artifactID, v.sha), calls[..k], calls[k]);
      assert calls[..k + 1] == calls[..k] + [calls[k]];
      var _ := v.AcceptChunk(calls[k].chunk, calls[k].sent);
    }
    assert calls[..|calls|] == calls;
    return v.final;
  }

  // ----- What every call keeps

  ghost predicate InForce(id: string, v: Progress, d: Descriptor) {
    v.total == d.total <= MAX_ARTIFACT_BYTES && v.metadata == Encode(id, d) && IsHexDigest(d.sha256)
  }

  ghost predicate Completed(sha: Hash, l: Ledger) {
    && l.head.Some? && l.closing.Some? && l.closing.value.Described() == l.head.value
    && l.state.size == l.state.total
    && l.closing.value.sha256 == HexEncode(sha(l.state.written))
  }

  ghost predicate Tallied(l: Ledger) {
    && l.state.size == (|l.forwarded| + l.lost) % UINT64
    && (l.lost == 0 ==> l.state.size == |l.forwarded| <= MAX_ARTIFACT_BYTES && l.state.written == l.forwarded)
  }

  ghost predicate Kept(id: string, sha: Hash, l: Ledger) {
    && Tallied(l)
    && l.state.total <= MAX_ARTIFACT_BYTES
    && (l.head.None? ==> l.state.index == 0 && !l.state.final)
    && (l.head.Some? ==> InForce(id, l.state, l.head.value))
    && (l.state.final ==> Completed(sha, l))
  }

  /** The chunk is counted: accepted, or refused after counting. */
  predicate Counts(err: Option<Error>) {
    err.None? || Counting(err)
  }

  /** A chunk that is not counted changes no tally; a counted one belongs to the descriptor in force,
      and is hashed unless it is too large. */
  lemma CountEffect(id: string, sha: Hash, v: Progress, call: Call)
    ensures var (w, err) := Accept(id, sha, v, call.chunk, call.sent);
            && (Captures(id, v, call) ==>
                  w.total == call.chunk.value.total && w.metadata == call.chunk.value.Metadata())
            && (!Captures(id, v, call) ==> w.total == v.total && w.metadata == v.metadata)
            && (!Counts(err) ==> w.size == v.size && w.written == v.written && w.final == v.final && w.index == v.index)
            && (Counts(err) ==>
                  && call.chunk.Some? && !v.final && call.chunk.value.artifactId == id
                  && (v.index == 0 ==> Captures(id, v, call))
                  && call.chunk.value.Metadata() == w.metadata
                  && |Bytes(call)| <= MAX_CHUNK_BYTES
                  && w.size == (v.size + |Bytes(call)|) % UINT64
                  && w.written == (if err == Some(ExceedsDeclaredSize) then v.written else v.written + Bytes(call)))
            && (err.None? ==> w.size <= w.total)
  {}

  lemma FinalEffect(id: string, sha: Hash, v: Progress, call: Call)
    ensures var (w, err) := Accept(id, sha, v, call.chunk, call.sent);
            && (v.final ==> w == v && !Counts(err) && !Captures(id, v, call))
            && (w.final && !v.final ==>
                  && Counts(err) && w.size == w.total
                  && call.chunk.value.sha256 == HexEncode(sha(w.written)))
  {}

  lemma AddModulo(a: nat, b: nat, d: nat, e: nat)
    requires a == b % UINT64 && e == (a + d) % UINT64
    ensures e == (b + d) % UINT64
  {}

  lemma TallyStep(id: string, sha: Hash, l: Ledger, call: Call)
    requires Tallied(l) && l.state.total <= MAX_ARTIFACT_BYTES
    ensures Tallied(Next(id, sha, l, call)) && Next(id, sha, l, call).state.total <= MAX_ARTIFACT_BYTES
  {
    var (w, err) := Accept(id, sha, l.state, call.chunk, call.sent);
    var n, d := Next(id, sha, l, call), Bytes(call);
    CountEffect(id, sha, l.state, call);
    if Counts(err) {
      AddModulo(l.state.size, |l.forwarded| + l.lost, |d|, w.size);
      assert |n.forwarded| + n.lost == |l.forwarded| + l.lost + |d|;
      assert d == [] ==> l.state.written + d == l.state.written;
    }
  }

  lemma CompletedStep(id: string, sha: Hash, l: Ledger, call: Call)
    requires Kept(id, sha, l) && !l.state.final
    ensures var n := Next(id, sha, l, call);
            && (n.head.None? ==> n.state.index == 0 && !n.state.final)
            && (n.head.Some? ==> InForce(id, n.state, n.head.value))
            && (n.state.final ==> Completed(sha, n))
  {
    var n := Next(id, sha, l, call);
    CountEffect(id, sha, l.state, call);
    FinalEffect(id, sha, l.state, call);
    if n.state.final {
      var c := call.chunk.value;
      HexEncodeIsHex(sha(n.state.written));
      assert NUL !in c.sha256;
      NulFreeDigestsAgree(id, n.head.value, c.Described());
    }
  }

  lemma KeptStep(id: string, sha: Hash, l: Ledger, call: Call)
    requires Kept(id, sha, l)
    ensures Kept(id, sha, Next(id, sha, l, call))
  {
    TallyStep(id, sha, l, call);
    if l.state.final {
      FinalEffect(id, sha, l.state, call);
    } else {
      CompletedStep(id, sha, l, call);
    }
  }

  lemma {:induction false} KeptAlways(id: string, sha: Hash, calls: seq<Call>)
    ensures Kept(id, sha, After(id, sha, calls))
  {
    if calls != [] {
      var n := |calls| - 1;
      KeptAlways(id, sha, calls[..n]);
      KeptStep(id, sha, After(id, sha, calls[..n]), calls[n]);
    }
  }

  // ----- The law

  /** The call is refused after its bytes have been counted. */
  ghost predicate Loses(id: string, sha: Hash, l: Ledger, call: Call) {
    Counting(Accept(id, sha, l.state, call.chunk, call.sent).1) && Bytes(call) != []
  }

  ghost function Losing(id: string, sha: Hash): (Ledger, Call) -> bool {
    (l, call) => Loses(id, sha, l, call)
  }

  ghost predicate Never(step: Stepper, loses: (Ledger, Call) -> bool, calls: seq<Call>) {
    forall i | 0 <= i < |calls| :: !loses(Fold(step, calls[..i]), calls[i])
  }

  /** No call with bytes is refused after counting. */
  ghost predicate NothingLost(id: string, sha: Hash, calls: seq<Call>) {
    Never(Accepting(id, sha), Losing(id, sha), calls)
  }

  lemma {:induction false} LostIffSometime(step: Stepper, loses: (Ledger, Call) -> bool, calls: seq<Call>)
    requires forall l, call :: step(l, call).lost == 0 <==> l.lost == 0 && !loses(l, call)
    ensures Fold(step, calls).lost == 0 <==> Never(step, loses, calls)
  {
    if calls != [] {
      var n := |calls| - 1;
      var init := calls[..n];
      LostIffSometime(step, loses, init);
      NeverNext(step, loses, calls);
    }
  }

  lemma NeverNext(step: Stepper, loses: (Ledger, Call) -> bool, calls: seq<Call>)
    requires calls != []
    ensures var n := |calls| - 1;
            Never(step, loses, calls) <==> Never(step, loses, calls[..n]) && !loses(Fold(step, calls[..n]), calls[n])
  {
    var n := |calls| - 1;
    var init := calls[..n];
    forall i | 0 <= i < n ensures loses(Fold(step, init[..i]), init[i]) <==> loses(Fold(step, calls[..i]), calls[i]) {
      assert init[..i] == calls[..i];
    }
  }

  lemma LossIff(id: string, sha: Hash, l: Ledger, call: Call)
    ensures Next(id, sha, l, call).lost == 0 <==> l.lost == 0 && !Loses(id, sha, l, call)
  {}

  lemma LostIff(id: string, sha: Hash, calls: seq<Call>)
    ensures After(id, sha, calls).lost == 0 <==> NothingLost(id, sha, calls)
  {
    var step, loses := Accepting(id, sha), Losing(id, sha);
    forall l, call ensures step(l, call).lost == 0 <==> l.lost == 0 && !loses(l, call) {
      LossIff(id, sha, l, call);
    }
    LostIffSometime(step, loses, calls);
  }

  /** The forwarded bytes have the length and the digest that the completing chunk declares. */
  ghost predicate PromiseKept(sha: Hash, l: Ledger)
    requires l.closing.Some?
  {
    |l.forwarded| == l.closing.value.total && HexEncode(sha(l.forwarded)) == l.closing.value.sha256
  }

  /** A completed transfer forwards exactly its declared bytes if no chunk with bytes was refused after
      counting, and only then, unless 2^64 bytes or more were lost and the count came round. */
  lemma PromiseKeptIff(id: string, sha: Hash, calls: seq<Call>)
    requires After(id, sha, calls).state.final
    ensures After(id, sha, calls).closing.Some?
    ensures NothingLost(id, sha, calls) ==> PromiseKept(sha, After(id, sha, calls))
    ensures PromiseKept(sha, After(id, sha, calls)) ==>
            NothingLost(id, sha, calls) || After(id, sha, calls).lost >= UINT64
  {
    KeptAlways(id, sha, calls);
    LostIff(id, sha, calls);
    LedgerKeepsPromiseIff(id, sha, After(id, sha, calls));
  }

  lemma LedgerKeepsPromiseIff(id: string, sha: Hash, l: Ledger)
    requires Kept(id, sha, l) && l.state.final
    ensures l.lost == 0 ==> PromiseKept(sha, l)
    ensures PromiseKept(sha, l) ==> l.lost == 0 || l.lost >= UINT64
  {
    assert l.closing.value.Described().total == l.state.total;
    if |l.forwarded| == l.state.total && l.lost < UINT64 {
      NoWrap(|l.forwarded|, l.lost);
    }
  }

  lemma NoWrap(f: nat, lost: nat)
    requires (f + lost) % UINT64 == f && lost < UINT64
    ensures lost == 0
  {}

  /** Without that bound: the length is right exactly when the lost bytes vanish in 64 bits. */
  lemma LengthKeptIff(id: string, sha: Hash, calls: seq<Call>)
    requires After(id, sha, calls).state.final
    ensures var l := After(id, sha, calls);
            l.closing.Some?
            && (|l.forwarded| == l.closing.value.total <==> l.lost % UINT64 == 0 && |l.forwarded| < UINT64)
  {
    var l := After(id, sha, calls);
    KeptAlways(id, sha, calls);
    assert l.closing.value.Described().total == l.state.total;
    Vanishes(|l.forwarded|, l.lost, l.state.total);
  }

  lemma Vanishes(f: nat, lost: nat, total: nat)
    requires total == (f + lost) % UINT64
    ensures f == total <==> lost % UINT64 == 0 && f < UINT64
  {}

  // ----- Calls that lose bytes

  /** The ledger after an oversized first chunk: refused, but counted. */
  lemma OversizedIsCounted(id: string, sha: Hash, c: Chunk)
    requires c.artifactId == id && c.index == 0 && c.total == 1 && IsHexDigest(c.sha256) && |c.data| == 2
    ensures Next(id, sha, FRESH, Call(Some(c), true)) ==
            Ledger(START.(total := 1, size := 2, metadata := c.Metadata()), [], 2, Some(c.Described()), None)
  {}

  lemma NextCompletes(id: string, sha: Hash, l: Ledger, c: Chunk)
    requires l.state == START.(total := l.state.total, size := l.state.size, metadata := l.state.metadata)
    requires c.artifactId == id && c.index == 0 && c.total == 5 && |c.data| == 3 && c.final && l.state.size == 2
    requires IsHexDigest(c.sha256) && c.sha256 == HexEncode(sha(c.data))
    ensures var n := Next(id, sha, l, Call(Some(c), true));
            n.state.final && n.state.total == 5 && n.lost == l.lost && n.forwarded == l.forwarded + c.data
  {
    assert [] + c.data == c.data;
  }

  /** An oversized first chunk is counted although it is refused, so a second first chunk completes
      the transfer with fewer bytes than it declares. */
  lemma IgnoredErrorBreaksThePromise(id: string, sha: Hash) returns (calls: seq<Call>)
    ensures var l := After(id, sha, calls);
            l.state.final && |l.forwarded| < l.state.total && !NothingLost(id, sha, calls)
  {
    var data: seq<Byte> := [1, 2, 3];
    var digest := HexEncode(sha(data));
    HexEncodeIsHex(sha(data));
    var refused := Chunk(id, 0, "v", 1, digest, [7, 7], false);
    var accepted := Chunk(id, 0, "v", 5, digest, data, true);
    OversizedIsCounted(id, sha, refused);
    var l := Next(id, sha, FRESH, Call(Some(refused), true));
    NextCompletes(id, sha, l, accepted);
    calls := [Call(Some(refused), true)] + [Call(Some(accepted), true)];
    FoldNext(Accepting(id, sha), [], Call(Some(refused), true));
    FoldNext(Accepting(id, sha), [] + [Call(Some(refused), true)], Call(Some(accepted), true));
    assert [] + [Call(Some(refused), true)] == [Call(Some(refused), true)];
    LostIff(id, sha, calls);
  }

  lemma UnsentIsCounted(id: string, sha: Hash, c: Chunk)
    requires c.artifactId == id && c.index == 0 && c.total == |c.data| == 1 && c.final
    requires IsHexDigest(c.sha256) && c.sha256 == HexEncode(sha(c.data))
    ensures var l := Next(id, sha, FRESH, Call(Some(c), false));
            l.state.final && l.state.total == 1 && l.lost == 1 && l.forwarded == []
  {
    assert [] + c.data == c.data;
  }

  /** The transfer is complete before its final chunk is sent: if that fails, nothing was forwarded. */
  lemma UnsentFinalChunkCompletes(id: string, sha: Hash) returns (calls: seq<Call>)
    ensures var l := After(id, sha, calls);
            l.state.final && l.forwarded == [] && l.state.total > 0 && !NothingLost(id, sha, calls)
  {
    var data: seq<Byte> := [1];
    HexEncodeIsHex(sha(data));
    var c := Chunk(id, 0, "v", 1, HexEncode(sha(data)), data, true);
    calls := [Call(Some(c), false)];
    UnsentIsCounted(id, sha, c);
    FoldNext(Accepting(id, sha), [], calls[0]);
    assert [] + calls == calls;
    LostIff(id, sha, calls);
  }
}
