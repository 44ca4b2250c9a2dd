/** The validator between an executor provider and the artifact stream it forwards. */
module ArtifactStream {
  import opened Wrappers
  import opened Strings
  import opened ArtifactDescriptor

  type Byte = b: nat | b < 256

  /** SHA-256 is any function from byte strings to 32-byte digests; a running hash is the bytes
      written so far, so summing after several writes hashes their concatenation. */
  type Digest = d: seq<Byte> | |d| == 32 witness seq(32, _ => 0)
  type Hash = seq<Byte> -> Digest

  const MAX_CHUNK_BYTES := 256 * 1024
  const MAX_ARTIFACT_BYTES := 512 * 1024 * 1024
  const UINT32 := 0x1_0000_0000
  const UINT64 := 0x1_0000_0000_0000_0000

  datatype Chunk = Chunk(
    artifactId: string, index: nat, version: string, total: nat, sha256: string, data: seq<Byte>, final: bool)
  {
    function Described(): Descriptor {
      Descriptor(version, total, sha256)
    }

    function Metadata(): string {
      Encode(artifactId, Described())
    }

    predicate WellTyped() {
      index < UINT32 && total < UINT64
    }
  }

  datatype Error =
    | InvalidSequence | ChunkTooLarge | EmptyDescriptor | ArtifactTooLarge | InvalidDigest
    | DescriptorChanged | ExceedsDeclaredSize | Mismatch | FinalMissing | SendFailed | Incomplete

  function HexDigit(n: nat): char
    requires n < 16
  {
    if n < 10 then ('0' as int + n) as char else ('a' as int + n - 10) as char
  }

  function HexEncode(bytes: seq<Byte>): string {
    if bytes == [] then []
    else [HexDigit(bytes[0] / 16), HexDigit(bytes[0] % 16)] + HexEncode(bytes[1..])
  }

  predicate IsHexDigit(c: char) {
    '0' <= c <= '9' || 'a' <= c <= 'f' || 'A' <= c <= 'F'
  }

  predicate IsHexDigest(s: string) {
    |s| == 64 && forall i | 0 <= i < |s| :: IsHexDigit(s[i])
  }

  // ----- One chunk

  datatype Progress = Progress(
    index: nat, total: nat, size: nat, metadata: string, written: seq<Byte>, final: bool)

  const START := Progress(0, 0, 0, "", [], false)

  function SequenceError(id: string, v: Progress, chunk: Option<Chunk>): Option<Error> {
    if chunk.None? || v.final || chunk.value.artifactId != id || chunk.value.index != v.index then
      Some(InvalidSequence)
    else if |chunk.value.data| > MAX_CHUNK_BYTES then Some(ChunkTooLarge)
    else None
  }

  function DescriptorError(c: Chunk): Option<Error> {
    if c.total == 0 && c.data != [] then Some(EmptyDescriptor)
    else if c.total > MAX_ARTIFACT_BYTES then Some(ArtifactTooLarge)
    else if |c.sha256| != 64 || !IsHexDigest(c.sha256) then Some(InvalidDigest)
    else None
  }

  /** Counting and hashing one chunk: the size is counted before it is checked. */
  function Count(sha: Hash, v: Progress, c: Chunk): (Progress, Option<Error>) {
    var counted := v.(size := (v.size + |c.data|) % UINT64);
    if counted.size > v.total then (counted, Some(ExceedsDeclaredSize))
    else
      var hashed := counted.(written := v.written + c.data);
      if c.final then
        if hashed.size != v.total || HexEncode(sha(hashed.written)) != c.sha256 then (hashed, Some(Mismatch))
        else (hashed.(final := true), None)
      else if hashed.size == v.total then (hashed, Some(FinalMissing))
      else (hashed, None)
  }

  /** What `accept` does to the validator and what it returns, for any chunk in any state. */
  function Accept(id: string, sha: Hash, v: Progress, chunk: Option<Chunk>, sent: bool): (Progress, Option<Error>) {
    var bad := SequenceError(id, v, chunk);
    if bad.Some? then (v, bad)
    else
      var c := chunk.value;
      var described := if v.index == 0 then DescriptorError(c) else None;
      if described.Some? then (v, described)
      else
        var w := if v.index == 0 then v.(total := c.total, metadata := c.Metadata()) else v;
        if c.Metadata() != w.metadata then (w, Some(DescriptorChanged))
        else
          var (x, err) := Count(sha, w, c);
          if err.Some? then (x, err)
          else if !sent then (x, Some(SendFailed))
          else (x.(index := (x.index + 1) % UINT32), None)
  }

  /** The first `k` sends succeed. */
  predicate AllSent(sends: seq<bool>, k: nat)
    requires k <= |sends|
  {
    forall i | 0 <= i < k :: sends[i]
  }

  class Validator {
    const artifactID: string
    const sha: Hash
    var index: nat
    var total: nat
    var size: nat
    var metadata: string
    var written: seq<Byte>
    var final: bool
    ghost var forwarded: seq<Chunk>

    ghost function Progressed(): Progress
      reads this
    {
      Progress(index, total, size, metadata, written, final)
    }

    constructor (artifactID: string, sha: Hash)
      ensures this.artifactID == artifactID && this.sha == sha
      ensures Progressed() == START && forwarded == []
    {
      this.artifactID := artifactID;
      this.sha := sha;
      index, total, size, metadata, written, final := 0, 0, 0, "", [], false;
      forwarded := [];
    }

    method ValidateChunkSequence(chunk: Option<Chunk>) returns (err: Option<Error>)
      ensures err == SequenceError(artifactID, Progressed(), chunk)
    {
      if chunk.None? || final || chunk.value.artifactId != artifactID || chunk.value.index != index {
        return Some(InvalidSequence);
      }
      if |chunk.value.data| > MAX_CHUNK_BYTES {
        return Some(ChunkTooLarge);
      }
      return None;
    }

    method CaptureDescriptor(chunk: Chunk) returns (err: Option<Error>)
      modifies this`total, this`metadata
      ensures err == DescriptorError(chunk)
      ensures err.Some? ==> total == old(total) && metadata == old(metadata)
      ensures err.None? ==> total == chunk.total && metadata == chunk.Metadata()
    {
      if chunk.total == 0 && |chunk.data| != 0 {
        return Some(EmptyDescriptor);
      }
      if chunk.total > MAX_ARTIFACT_BYTES {
        return Some(ArtifactTooLarge);
      }
      if |chunk.sha256| != 64 || !IsHexDigest(chunk.sha256) {
        return Some(InvalidDigest);
      }
      total := chunk.total;
      metadata := chunk.Metadata();
      return None;
    }

    method AddChunk(chunk: Chunk) returns (err: Option<Error>)
      modifies this`size, this`written, this`final
      ensures (Progressed(), err) == Count(sha, old(Progressed()), chunk)
    {
      size := (size + |chunk.data|) % UINT64;
      if size > total {
        return Some(ExceedsDeclaredSize);
      }
      written := written + chunk.data;
      if chunk.final {
        if size != total || HexEncode(sha(written)) != chunk.sha256 {
          return Some(Mismatch);
        }
        final := true;
      } else if size == total {
        return Some(FinalMissing);
      }
      return None;
    }

    /** `sent` is the result of forwarding the chunk downstream. */
    method AcceptChunk(chunk: Option<Chunk>, sent: bool) returns (err: Option<Error>)
      modifies this
      ensures (Progressed(), err) == Accept(artifactID, sha, old(Progressed()), chunk, sent)
      ensures forwarded == if err.None? then old(forwarded) + [chunk.value] else old(forwarded)
    {
      err := ValidateChunkSequence(chunk);
      if err.Some? {
        return;
      }
      if index == 0 {
        err := CaptureDescriptor(chunk.value);
        if err.Some? {
          return;
        }
      }
      if chunk.value.Metadata() != metadata {
        return Some(DescriptorChanged);
      }
      err := AddChunk(chunk.value);
      if err.Some? {
        return;
      }
      if !sent {
        return Some(SendFailed);
      }
      index := (index + 1) % UINT32;
      forwarded := forwarded + [chunk.value];
    }

    /** One chunk after the chunks already forwarded. */
    method AcceptNext(chunk: Chunk, sent: bool) returns (err: Option<Error>)
      requires Reached(artifactID, sha, forwarded, Progressed()) && chunk.WellTyped()
      modifies this
      ensures err.None? <==> ValidPrefix(artifactID, sha, old(forwarded) + [chunk]) && sent
      ensures err.None? ==>
                forwarded == old(forwarded) + [chunk] && Reached(artifactID, sha, forwarded, Progressed())
      ensures err.Some? ==> forwarded == old(forwarded)
    {
      ChunkAccepted(artifactID, sha, forwarded, chunk, sent, Progressed());
      err := AcceptChunk(Some(chunk), sent);
    }

    /** Chunks in turn, up to the first error. */
    method AcceptAll(chunks: seq<Chunk>, sends: seq<bool>) returns (err: Option<Error>)
      requires Progressed() == START && forwarded == []
      requires |sends| == |chunks|
      requires forall i | 0 <= i < |chunks| :: chunks[i].WellTyped()
      modifies this
      ensures err.None? <==> ValidPrefix(artifactID, sha, chunks) && AllSent(sends, |sends|)
      ensures err.None? ==> forwarded == chunks && Reached(artifactID, sha, forwarded, Progressed())
      ensures forwarded <= chunks && ValidPrefix(artifactID, sha, forwarded)
    {
      for k := 0 to |chunks|
        invariant forwarded == chunks[..k]
        invariant AllSent(sends, k)
        invariant Reached(artifactID, sha, forwarded, Progressed())
      {
        OneMoreChunk(artifactID, sha, chunks, sends, k);
        err := AcceptNext(chunks[k], sends[k]);
        if err.Some? {
          return;
        }
      }
      assert chunks[..|chunks|] == chunks;
      return None;
    }

    /** Serves a provider that hands over `chunks` and stops at the first error. */
    method Serve(chunks: seq<Chunk>, sends: seq<bool>) returns (err: Option<Error>)
      requires Progressed() == START && forwarded == []
      requires |sends| == |chunks|
      requires forall i | 0 <= i < |chunks| :: chunks[i].WellTyped()
      modifies this
      ensures err.None? <==> ValidStream(artifactID, sha, chunks) && AllSent(sends, |sends|)
      ensures err.None? ==> forwarded == chunks
      ensures forwarded <= chunks && ValidPrefix(artifactID, sha, forwarded)
    {
      err := AcceptAll(chunks, sends);
      StreamIsFinishedPrefix(artifactID, sha, chunks);
      if err.None? && !final {
        return Some(Incomplete);
      }
    }
  }

  // ----- Whole streams

  ghost function Concat(chunks: seq<Chunk>): seq<Byte> {
    if chunks == [] then []
    else Concat(chunks[..|chunks| - 1]) + chunks[|chunks| - 1].data
  }

  /** The chunk index is 32 bits wide: chunk `i` belongs to the block of 2^32 chunks headed by this one. */
  function Head(i: nat): (h: nat)
    ensures h <= i && h % UINT32 == 0
  {
    i - i % UINT32
  }

  predicate HeadDescribes(c: Chunk) {
    c.total <= MAX_ARTIFACT_BYTES && IsHexDigest(c.sha256)
  }

  /** The declarative law of a complete artifact stream of any length. */
  ghost predicate ValidStream(id: string, sha: Hash, cs: seq<Chunk>) {
    && cs != []
    && (forall i | 0 <= i < |cs| :: Numbered(id, cs[i], i))
    && (forall i | 0 <= i < |cs| && i % UINT32 == 0 :: HeadDescribes(cs[i]))
    && (forall i | 0 <= i < |cs| :: cs[i].Metadata() == cs[Head(i)].Metadata())
    && (forall i | 0 <= i < |cs| :: cs[i].final <==> i == |cs| - 1)
    && (forall i | 0 <= i < |cs| - 1 :: |Concat(cs[..i + 1])| < cs[Head(i)].total)
    && |Concat(cs)| == cs[Head(|cs| - 1)].total
    && cs[|cs| - 1].sha256 == HexEncode(sha(Concat(cs)))
  }

  predicate Numbered(id: string, c: Chunk, i: nat) {
    c.artifactId == id && c.index == i % UINT32 && |c.data| <= MAX_CHUNK_BYTES
  }

  /** The last chunk of `cs` may follow the ones before it. */
  ghost predicate Follows(id: string, sha: Hash, cs: seq<Chunk>)
    requires cs != []
  {
    var n := |cs| - 1;
    var c, head := cs[n], cs[Head(n)];
    && Numbered(id, c, n)
    && (n % UINT32 == 0 ==> HeadDescribes(c))
    && (n > 0 ==> !cs[n - 1].final)
    && c.Metadata() == head.Metadata()
    && (if c.final then |Concat(cs)| == head.total && c.sha256 == HexEncode(sha(Concat(cs)))
        else |Concat(cs)| < head.total)
  }

  ghost predicate ValidPrefix(id: string, sha: Hash, cs: seq<Chunk>) {
    cs == [] || (ValidPrefix(id, sha, cs[..|cs| - 1]) && Follows(id, sha, cs))
  }

  /** The validator's state after forwarding `cs`. */
  ghost predicate Reached(id: string, sha: Hash, cs: seq<Chunk>, v: Progress) {
    ValidPrefix(id, sha, cs) && v == StateAfter(cs)
  }

  ghost function StateAfter(cs: seq<Chunk>): Progress {
    if cs == [] then START
    else
      var n := |cs| - 1;
      var head := cs[Head(n)];
      Progress(|cs| % UINT32, head.total, |Concat(cs)|, head.Metadata(), Concat(cs), cs[n].final)
  }

  lemma HeadNext(n: nat)
    requires n > 0
    ensures if n % UINT32 == 0 then Head(n) == n else Head(n) == Head(n - 1)
    ensures ((n - 1) % UINT32 + 1) % UINT32 == n % UINT32
  {}

  lemma {:induction false} PrefixTotals(id: string, sha: Hash, cs: seq<Chunk>)
    requires ValidPrefix(id, sha, cs) && cs != []
    ensures |Concat(cs)| <= cs[Head(|cs| - 1)].total <= MAX_ARTIFACT_BYTES
  {
    var n := |cs| - 1;
    if n % UINT32 != 0 {
      HeadNext(n);
      PrefixTotals(id, sha, cs[..n]);
    }
  }

  lemma Counted(sha: Hash, v: Progress, c: Chunk)
    requires v.size == |v.written| <= MAX_ARTIFACT_BYTES && v.total <= MAX_ARTIFACT_BYTES && !v.final
    requires |c.data| <= MAX_CHUNK_BYTES
    ensures var all := v.written + c.data;
            var (w, err) := Count(sha, v, c);
            && (err.None? <==>
                  if c.final then |all| == v.total && c.sha256 == HexEncode(sha(all)) else |all| < v.total)
            && (err.None? ==> w == v.(size := |all|, written := all, final := c.final))
  {}

  /** When a chunk is accepted for a known total and descriptor encoding. */
  ghost predicate Fits(id: string, sha: Hash, v: Progress, c: Chunk, total: nat, metadata: string) {
    var all := v.written + c.data;
    && !v.final && c.artifactId == id && c.index == v.index && |c.data| <= MAX_CHUNK_BYTES
    && c.Metadata() == metadata
    && if c.final then |all| == total && c.sha256 == HexEncode(sha(all)) else |all| < total
  }

  ghost function Fitted(v: Progress, c: Chunk, total: nat, metadata: string): Progress {
    var all := v.written + c.data;
    Progress((v.index + 1) % UINT32, total, |all|, metadata, all, c.final)
  }

  /** The first chunk of a block brings its own descriptor. */
  lemma HeadAccepted(id: string, sha: Hash, v: Progress, c: Chunk)
    requires c.WellTyped() && v.index == 0
    requires v.size == |v.written| <= MAX_ARTIFACT_BYTES
    ensures var (w, err) := Accept(id, sha, v, Some(c), true);
            && (err.None? <==> HeadDescribes(c) && Fits(id, sha, v, c, c.total, c.Metadata()))
            && (err.None? ==> w == Fitted(v, c, c.total, c.Metadata()))
  {
    if SequenceError(id, v, Some(c)).None? && DescriptorError(c).None? {
      Counted(sha, v.(total := c.total, metadata := c.Metadata()), c);
    }
  }

  lemma LaterAccepted(id: string, sha: Hash, v: Progress, c: Chunk)
    requires c.WellTyped() && 0 < v.index < UINT32
    requires v.size == |v.written| <= v.total <= MAX_ARTIFACT_BYTES
    ensures var (w, err) := Accept(id, sha, v, Some(c), true);
            && (err.None? <==> Fits(id, sha, v, c, v.total, v.metadata))
            && (err.None? ==> w == Fitted(v, c, v.total, v.metadata))
  {
    if SequenceError(id, v, Some(c)).None? {
      Counted(sha, v, c);
    }
  }

  lemma SendDecidesLast(id: string, sha: Hash, v: Progress, chunk: Option<Chunk>)
    ensures var (w, err) := Accept(id, sha, v, chunk, true);
            err.Some? ==> Accept(id, sha, v, chunk, false) == (w, err)
    ensures Accept(id, sha, v, chunk, false).1.Some?
  {}

  /** The head of the block that the next chunk belongs to. */
  lemma NextHead(cs: seq<Chunk>, c: Chunk)
    ensures |cs| % UINT32 == 0 ==> (cs + [c])[Head(|cs|)] == c
    ensures |cs| % UINT32 != 0 ==> (cs + [c])[Head(|cs|)] == cs[Head(|cs| - 1)]
  {
    if |cs| % UINT32 != 0 {
      HeadNext(|cs|);
      var h := Head(|cs| - 1);
      assert Head(|cs|) == h && (cs + [c])[h] == cs[h];
    }
  }

  lemma FollowsIff(id: string, sha: Hash, cs: seq<Chunk>, c: Chunk)
    ensures var next := cs + [c];
            var head := next[Head(|cs|)];
            var all := Concat(cs) + c.data;
            Follows(id, sha, next) <==>
            && Numbered(id, c, |cs|)
            && (|cs| % UINT32 == 0 ==> HeadDescribes(c))
            && (cs != [] ==> !cs[|cs| - 1].final)
            && c.Metadata() == head.Metadata()
            && if c.final then |all| == head.total && c.sha256 == HexEncode(sha(all)) else |all| < head.total
  {
    var next := cs + [c];
    ConcatNext(cs, c);
    assert cs != [] ==> next[|cs| - 1] == cs[|cs| - 1];
  }

  /** A chunk may follow a prefix exactly when it fits the state the prefix leads to. */
  lemma FollowsIffFits(id: string, sha: Hash, cs: seq<Chunk>, c: Chunk, v: Progress)
    requires Reached(id, sha, cs, v)
    ensures var next := cs + [c];
            var head := next[Head(|cs|)];
            ValidPrefix(id, sha, next) <==>
            (v.index == 0 ==> HeadDescribes(c)) && Fits(id, sha, v, c, head.total, head.Metadata())
  {
    var next := cs + [c];
    assert next[..|next| - 1] == cs;
    assert ValidPrefix(id, sha, next) <==> Follows(id, sha, next);
    NextHead(cs, c);
    FollowsIff(id, sha, cs, c);
  }

  /** One step of the refinement: a chunk is accepted exactly when it may follow. */
  lemma ChunkAccepted(id: string, sha: Hash, cs: seq<Chunk>, c: Chunk, sent: bool, v: Progress)
    requires Reached(id, sha, cs, v) && c.WellTyped()
    ensures var (w, err) := Accept(id, sha, v, Some(c), sent);
            && (err.None? <==> ValidPrefix(id, sha, cs + [c]) && sent)
            && (err.None? ==> Reached(id, sha, cs + [c], w))
  {
    var next := cs + [c];
    var head := next[Head(|cs|)];
    NextHead(cs, c);
    FollowsIffFits(id, sha, cs, c, v);
    SendDecidesLast(id, sha, v, Some(c));
    if cs != [] {
      PrefixTotals(id, sha, cs);
    }
    if v.index == 0 {
      HeadAccepted(id, sha, v, c);
    } else {
      LaterAccepted(id, sha, v, c);
    }
    if ValidPrefix(id, sha, next) {
      FittedIsReached(id, sha, cs, c, v);
    }
  }

  lemma FittedIsReached(id: string, sha: Hash, cs: seq<Chunk>, c: Chunk, v: Progress)
    requires Reached(id, sha, cs, v) && ValidPrefix(id, sha, cs + [c])
    ensures var head := (cs + [c])[Head(|cs|)];
            Reached(id, sha, cs + [c], Fitted(v, c, head.total, head.Metadata()))
  {
    ConcatNext(cs, c);
    HeadNext(|cs| + 1);
  }

  lemma ConcatNext(cs: seq<Chunk>, c: Chunk)
    ensures Concat(cs + [c]) == Concat(cs) + c.data
  {
    assert (cs + [c])[..|cs|] == cs;
  }

  lemma {:induction false} PrefixOfValid(id: string, sha: Hash, cs: seq<Chunk>, k: nat)
    requires ValidStream(id, sha, cs) && k <= |cs|
    ensures ValidPrefix(id, sha, cs[..k])
  {
    if k > 0 {
      PrefixOfValid(id, sha, cs, k - 1);
      assert cs[..k][..k - 1] == cs[..k - 1];
      assert k == |cs| ==> cs[..k] == cs;
      assert cs[..k - 1 + 1] == cs[..k];
    }
  }

  lemma {:induction false} PrefixOfPrefix(id: string, sha: Hash, cs: seq<Chunk>, k: nat)
    requires k <= |cs|
    ensures ValidPrefix(id, sha, cs) ==> ValidPrefix(id, sha, cs[..k])
  {
    if k == |cs| {
      assert cs[..k] == cs;
    } else {
      var init := cs[..|cs| - 1];
      PrefixOfPrefix(id, sha, init, k);
      assert init[..k] == cs[..k];
    }
  }

  /** One turn of the loop over the chunks. */
  lemma OneMoreChunk(id: string, sha: Hash, cs: seq<Chunk>, sends: seq<bool>, k: nat)
    requires k < |cs| == |sends|
    ensures cs[..k] + [cs[k]] == cs[..k + 1] && cs[..k] <= cs
    ensures ValidPrefix(id, sha, cs) && AllSent(sends, |sends|) ==> ValidPrefix(id, sha, cs[..k + 1]) && sends[k]
  {
    PrefixOfPrefix(id, sha, cs, k + 1);
  }

  lemma PrefixFollows(id: string, sha: Hash, cs: seq<Chunk>, i: nat)
    requires ValidPrefix(id, sha, cs) && i < |cs|
    ensures Follows(id, sha, cs[..i + 1])
    ensures i < |cs| - 1 ==> !cs[i].final
  {
    PrefixOfPrefix(id, sha, cs, i + 1);
    if i + 1 < |cs| {
      PrefixOfPrefix(id, sha, cs, i + 2);
      assert cs[..i + 2][i] == cs[i];
    }
  }

  lemma PrefixFacts(id: string, sha: Hash, cs: seq<Chunk>, i: nat)
    requires ValidPrefix(id, sha, cs) && i < |cs|
    ensures i < |cs| - 1 ==> !cs[i].final && |Concat(cs[..i + 1])| < cs[Head(i)].total
    ensures Numbered(id, cs[i], i) && cs[i].Metadata() == cs[Head(i)].Metadata()
    ensures i % UINT32 == 0 ==> HeadDescribes(cs[i])
  {
    PrefixFollows(id, sha, cs, i);
    var p := cs[..i + 1];
    assert p[i] == cs[i] && p[Head(i)] == cs[Head(i)];
  }

  /** The incremental and the declarative reading of a stream agree. */
  lemma StreamIsFinishedPrefix(id: string, sha: Hash, cs: seq<Chunk>)
    ensures ValidStream(id, sha, cs) <==> cs != [] && ValidPrefix(id, sha, cs) && cs[|cs| - 1].final
  {
    if ValidStream(id, sha, cs) {
      PrefixOfValid(id, sha, cs, |cs|);
      assert cs[..|cs|] == cs;
    }
    if cs != [] && ValidPrefix(id, sha, cs) && cs[|cs| - 1].final {
      FinishedPrefixIsStream(id, sha, cs);
    }
  }

  lemma FinishedPrefixIsStream(id: string, sha: Hash, cs: seq<Chunk>)
    requires cs != [] && ValidPrefix(id, sha, cs) && cs[|cs| - 1].final
    ensures ValidStream(id, sha, cs)
  {
    forall i | 0 <= i < |cs|
      ensures Numbered(id, cs[i], i) && cs[i].Metadata() == cs[Head(i)].Metadata()
      ensures cs[i].final <==> i == |cs| - 1
      ensures i % UINT32 == 0 ==> HeadDescribes(cs[i])
      ensures i < |cs| - 1 ==> |Concat(cs[..i + 1])| < cs[Head(i)].total
    {
      PrefixFacts(id, sha, cs, i);
    }
  }

  /** A complete stream of at most 2^32 chunks: one descriptor, indices that count the chunks. */
  ghost predicate OneBlockStream(id: string, sha: Hash, cs: seq<Chunk>) {
    && cs != []
    && (forall i | 0 <= i < |cs| :: cs[i].artifactId == id && cs[i].index == i && |cs[i].data| <= MAX_CHUNK_BYTES)
    && cs[0].total <= MAX_ARTIFACT_BYTES && IsHexDigest(cs[0].sha256)
    && (forall i | 0 <= i < |cs| :: cs[i].Metadata() == cs[0].Metadata())
    && (forall i | 0 <= i < |cs| :: cs[i].final <==> i == |cs| - 1)
    && (forall i | 0 < i < |cs| :: |Concat(cs[..i])| < cs[0].total)
    && |Concat(cs)| == cs[0].total
    && cs[|cs| - 1].sha256 == HexEncode(sha(Concat(cs)))
  }

  /** Up to 2^32 chunks the law is about a single descriptor. */
  lemma ShortStreamIsOneBlock(id: string, sha: Hash, cs: seq<Chunk>)
    requires |cs| <= UINT32
    ensures ValidStream(id, sha, cs) <==> OneBlockStream(id, sha, cs)
  {
    assert forall i: nat | i < |cs| :: i % UINT32 == i && Head(i) == 0;
    if ValidStream(id, sha, cs) {
      assert forall i | 0 <= i < |cs| :: Numbered(id, cs[i], i);
      forall i | 0 < i < |cs| ensures |Concat(cs[..i])| < cs[0].total {
        assert cs[..i - 1 + 1] == cs[..i] && Head(i - 1) == 0;
      }
    }
    if OneBlockStream(id, sha, cs) {
      assert forall i | 0 <= i < |cs| :: Numbered(id, cs[i], i);
    }
  }

  // ----- Integrity

  lemma {:induction false} HexEncodeIsHex(bytes: seq<Byte>)
    ensures |HexEncode(bytes)| == 2 * |bytes|
    ensures forall i | 0 <= i < |HexEncode(bytes)| :: IsHexDigit(HexEncode(bytes)[i])
  {
    if bytes != [] {
      HexEncodeIsHex(bytes[1..]);
      var head := [HexDigit(bytes[0] / 16), HexDigit(bytes[0] % 16)];
      assert IsHexDigit(head[0]) && IsHexDigit(head[1]);
      forall i | 0 <= i < |HexEncode(bytes)| ensures IsHexDigit(HexEncode(bytes)[i]) {
        assert i >= 2 ==> HexEncode(bytes)[i] == HexEncode(bytes[1..])[i - 2];
      }
    }
  }

  /** The descriptor a block was opened with. */
  lemma BlockIsDescribed(id: string, sha: Hash, cs: seq<Chunk>, i: nat)
    requires ValidPrefix(id, sha, cs) && i < |cs|
    ensures cs[Head(i)].artifactId == id && IsHexDigest(cs[Head(i)].sha256) && NUL !in cs[Head(i)].sha256
  {
    PrefixFacts(id, sha, cs, Head(i));
  }

  /** Within a block no chunk changes the descriptor, unless an inner component of the version of the
      block's first chunk reads as a decimal. */
  lemma DescriptorIsStable(id: string, sha: Hash, cs: seq<Chunk>, i: nat)
    requires ValidPrefix(id, sha, cs) && i < |cs| && cs[i].WellTyped()
    requires !HasInnerDecimal(cs[Head(i)].version)
    ensures cs[i].Described() == cs[Head(i)].Described()
  {
    BlockIsDescribed(id, sha, cs, i);
    PrefixFacts(id, sha, cs, i);
    if cs[i].Described() != cs[Head(i)].Described() {
      AmbiguousMeansInnerDecimal(id, cs[Head(i)].Described(), cs[i].Described());
    }
  }

  /** Every block's first chunk repeats the encoding of the very first one. */
  ghost predicate HeadsRepeat(cs: seq<Chunk>) {
    forall h | 0 <= h < |cs| && h % UINT32 == 0 :: cs[h].Metadata() == cs[0].Metadata()
  }

  /** Over a run of any length all encodings are the first one exactly when every later block's head
      repeats it, and so are all descriptors if the first version has no inner decimal. */
  lemma FirstDescriptorKeptIff(id: string, sha: Hash, cs: seq<Chunk>)
    requires ValidPrefix(id, sha, cs) && forall i | 0 <= i < |cs| :: cs[i].WellTyped()
    ensures (forall i | 0 <= i < |cs| :: cs[i].Metadata() == cs[0].Metadata()) <==> HeadsRepeat(cs)
    ensures cs != [] && !HasInnerDecimal(cs[0].version) ==>
              ((forall i | 0 <= i < |cs| :: cs[i].Described() == cs[0].Described()) <==> HeadsRepeat(cs))
  {
    EncodingKeptIff(id, sha, cs);
    if cs != [] && !HasInnerDecimal(cs[0].version) {
      forall i | 0 <= i < |cs|
        ensures cs[i].Metadata() == cs[0].Metadata() <==> cs[i].Described() == cs[0].Described()
      {
        SameEncodingAsFirst(id, sha, cs, i);
      }
    }
  }

  lemma EncodingKeptIff(id: string, sha: Hash, cs: seq<Chunk>)
    requires ValidPrefix(id, sha, cs)
    ensures (forall i | 0 <= i < |cs| :: cs[i].Metadata() == cs[0].Metadata()) <==> HeadsRepeat(cs)
  {
    var encodings := Encodings(cs);
    forall i | 0 <= i < |cs| ensures encodings[i] == encodings[Head(i)] {
      SameAsHead(id, sha, cs, i);
    }
    BlocksAgreeIff(encodings);
    RepeatIff(cs);
  }

  ghost function Encodings(cs: seq<Chunk>): seq<string> {
    seq(|cs|, i requires 0 <= i < |cs| => cs[i].Metadata())
  }

  lemma SameAsHead(id: string, sha: Hash, cs: seq<Chunk>, i: nat)
    requires ValidPrefix(id, sha, cs) && i < |cs|
    ensures Encodings(cs)[i] == Encodings(cs)[Head(i)]
  {
    PrefixFacts(id, sha, cs, i);
  }

  ghost predicate AllFirst(encodings: seq<string>) {
    forall i | 0 <= i < |encodings| :: encodings[i] == encodings[0]
  }

  ghost predicate HeadsFirst(encodings: seq<string>) {
    forall h | 0 <= h < |encodings| && h % UINT32 == 0 :: encodings[h] == encodings[0]
  }

  lemma BlocksAgreeIff(encodings: seq<string>)
    requires forall i | 0 <= i < |encodings| :: encodings[i] == encodings[Head(i)]
    ensures AllFirst(encodings) <==> HeadsFirst(encodings)
  {
    if HeadsFirst(encodings) {
      forall i | 0 <= i < |encodings| ensures encodings[i] == encodings[0] {
        var h := Head(i);
        assert encodings[h] == encodings[0];
      }
    }
  }

  lemma RepeatIff(cs: seq<Chunk>)
    ensures HeadsFirst(Encodings(cs)) <==> HeadsRepeat(cs)
    ensures AllFirst(Encodings(cs)) <==> forall i | 0 <= i < |cs| :: cs[i].Metadata() == cs[0].Metadata()
  {
    assert forall i | 0 <= i < |cs| :: Encodings(cs)[i] == cs[i].Metadata();
  }

  lemma SameEncodingAsFirst(id: string, sha: Hash, cs: seq<Chunk>, i: nat)
    requires ValidPrefix(id, sha, cs) && i < |cs| && cs[i].WellTyped() && !HasInnerDecimal(cs[0].version)
    ensures cs[i].Metadata() == cs[0].Metadata() <==> cs[i].Described() == cs[0].Described()
  {
    PrefixFacts(id, sha, cs, i);
    BlockIsDescribed(id, sha, cs, 0);
    if cs[i].Metadata() == cs[0].Metadata() && cs[i].Described() != cs[0].Described() {
      AmbiguousMeansInnerDecimal(id, cs[0].Described(), cs[i].Described());
    }
  }

  /** A complete stream carries exactly the bytes its last block's head promised: the declared length
      and the declared digest in lower case, and its final chunk repeats that descriptor, whatever
      the version holds. The first chunk's promise is the one kept exactly when that head repeats
      its encoding. */
  lemma CompleteStreamKeepsItsPromise(id: string, sha: Hash, cs: seq<Chunk>)
    requires ValidStream(id, sha, cs)
    ensures var n := |cs| - 1;
            var head := cs[Head(n)];
            && |Concat(cs)| == head.total
            && HexEncode(sha(Concat(cs))) == head.sha256
            && cs[n].Described() == head.Described()
            && (cs[n].Described() == cs[0].Described() <==> head.Metadata() == cs[0].Metadata())
  {
    var n := |cs| - 1;
    var last, head := cs[n], cs[Head(n)];
    StreamIsFinishedPrefix(id, sha, cs);
    BlockIsDescribed(id, sha, cs, n);
    BlockIsDescribed(id, sha, cs, 0);
    HexEncodeIsHex(sha(Concat(cs)));
    assert NUL !in last.sha256;
    NulFreeDigestsAgree(id, head.Described(), last.Described());
    if head.Metadata() == cs[0].Metadata() {
      NulFreeDigestsAgree(id, head.Described(), cs[0].Described());
    }
  }

  /** `c` continues the block of `cs` under a different descriptor. */
  ghost predicate Redescribes(id: string, sha: Hash, cs: seq<Chunk>, c: Chunk)
    requires cs != []
  {
    c.WellTyped() && ValidPrefix(id, sha, cs + [c]) && c.Described() != cs[Head(|cs| - 1)].Described()
  }

  /** At every point inside a block some next chunk can change the descriptor, exactly when an inner
      component of the version of the block's first chunk reads as a decimal. */
  lemma DescriptorCanChangeIff(id: string, sha: Hash, cs: seq<Chunk>)
    requires ValidPrefix(id, sha, cs) && |cs| % UINT32 != 0 && !cs[|cs| - 1].final
    ensures (exists c :: Redescribes(id, sha, cs, c)) <==> HasInnerDecimal(cs[Head(|cs| - 1)].version)
  {
    if c :| Redescribes(id, sha, cs, c) {
      RedescribedMeans(id, sha, cs, c);
    }
    var version := cs[Head(|cs| - 1)].version;
    if HasInnerDecimal(version) {
      var p: string, t: nat, tail: string :| t <= MAX_UINT64 && InnerDecimalAt(version, p, t, tail);
      RedescribedNext(id, sha, cs, p, t, tail);
    }
  }

  lemma RedescribedMeans(id: string, sha: Hash, cs: seq<Chunk>, c: Chunk)
    requires ValidPrefix(id, sha, cs) && |cs| % UINT32 != 0 && Redescribes(id, sha, cs, c)
    ensures HasInnerDecimal(cs[Head(|cs| - 1)].version)
  {
    NextHead(cs, c);
    PrefixFacts(id, sha, cs + [c], |cs|);
    BlockIsDescribed(id, sha, cs, |cs| - 1);
    AmbiguousMeansInnerDecimal(id, cs[Head(|cs| - 1)].Described(), c.Described());
  }

  lemma RedescribedNext(id: string, sha: Hash, cs: seq<Chunk>, p: string, t: nat, tail: string)
    requires ValidPrefix(id, sha, cs) && |cs| % UINT32 != 0 && !cs[|cs| - 1].final
    requires t <= MAX_UINT64 && InnerDecimalAt(cs[Head(|cs| - 1)].version, p, t, tail)
    ensures exists c :: Redescribes(id, sha, cs, c)
  {
    var head := cs[Head(|cs| - 1)];
    BlockIsDescribed(id, sha, cs, |cs| - 1);
    var e := InnerDecimalMeansAmbiguous(id, head.Described(), p, t, tail);
    var c := Chunk(id, |cs| % UINT32, e.version, e.total, e.sha256, [], false);
    EmptyChunkFollows(id, sha, cs, c);
    assert Redescribes(id, sha, cs, c);
  }

  /** Inside a block an empty chunk with the block's encoding may always follow. */
  lemma EmptyChunkFollows(id: string, sha: Hash, cs: seq<Chunk>, c: Chunk)
    requires ValidPrefix(id, sha, cs) && |cs| % UINT32 != 0 && !cs[|cs| - 1].final
    requires c.artifactId == id && c.index == |cs| % UINT32 && c.data == [] && !c.final
    requires c.Metadata() == cs[Head(|cs| - 1)].Metadata()
    ensures ValidPrefix(id, sha, cs + [c])
  {
    NextHead(cs, c);
    FollowsIff(id, sha, cs, c);
    assert Concat(cs) + c.data == Concat(cs);
    assert (cs + [c])[..|cs|] == cs;
  }

  // ----- Digests and limits

  /** The value of a lower-case hexadecimal digit. */
  function HexValue(c: char): int {
    if c in "0123456789" then c as int - '0' as int
    else if c in "abcdef" then c as int - 'a' as int + 10
    else -1
  }

  lemma DigitsHaveValues(n: nat)
    requires n < 16
    ensures HexDigit(n) in "0123456789abcdef" && HexValue(HexDigit(n)) == n
  {
    assert HexDigit(n) == "0123456789abcdef"[n];
  }

  /** The encoding has two lower-case digits for each byte, the high half first. */
  lemma {:induction false} HexEncodeIsPositional(bytes: seq<Byte>)
    ensures |HexEncode(bytes)| == 2 * |bytes|
    ensures forall i | 0 <= i < |bytes| :: Writes(HexEncode(bytes), i, bytes[i])
  {
    if bytes != [] {
      var rest := HexEncode(bytes[1..]);
      HexEncodeIsPositional(bytes[1..]);
      var head := [HexDigit(bytes[0] / 16), HexDigit(bytes[0] % 16)];
      ByteIsWritten(bytes[0], rest);
      forall i | 0 < i < |bytes| ensures Writes(head + rest, i, bytes[i]) {
        assert Writes(rest, i - 1, bytes[1..][i - 1]);
        WritesShift(head, rest, i - 1, bytes[i]);
      }
    }
  }

  lemma ByteIsWritten(b: Byte, rest: string)
    ensures Writes([HexDigit(b / 16), HexDigit(b % 16)] + rest, 0, b)
  {
    DigitsHaveValues(b / 16);
    DigitsHaveValues(b % 16);
  }

  lemma WritesShift(head: string, rest: string, i: nat, b: Byte)
    requires |head| == 2 && Writes(rest, i, b)
    ensures Writes(head + rest, i + 1, b)
  {
    var text := head + rest;
    assert text[2 * (i + 1)] == rest[2 * i] && text[2 * (i + 1) + 1] == rest[2 * i + 1];
  }

  /** Digits `2i` and `2i + 1` are lower-case and worth `b`. */
  predicate Writes(text: string, i: nat, b: Byte) {
    && 2 * i + 1 < |text| && text[2 * i] in "0123456789abcdef" && text[2 * i + 1] in "0123456789abcdef"
    && 16 * HexValue(text[2 * i]) + HexValue(text[2 * i + 1]) == b
  }

  /** A digest is valid exactly when it is 64 hexadecimal digits of either case. */
  lemma ValidDigestIff(s: string)
    ensures IsHexDigest(s) <==> |s| == 64 && forall i | 0 <= i < |s| :: s[i] in "0123456789abcdefABCDEF"
  {
    forall c: char ensures IsHexDigit(c) <==> c in "0123456789abcdefABCDEF" {
      HexDigitIff(c);
    }
  }

  lemma HexDigitIff(c: char)
    ensures IsHexDigit(c) <==> c in "0123456789abcdefABCDEF"
  {
    if '0' <= c <= '9' {
      assert c == "0123456789abcdefABCDEF"[c as int - '0' as int];
    } else if 'a' <= c <= 'f' {
      assert c == "0123456789abcdefABCDEF"[c as int - 'a' as int + 10];
    } else if 'A' <= c <= 'F' {
      assert c == "0123456789abcdefABCDEF"[c as int - 'A' as int + 16];
    }
  }

  /** Why a chunk is refused: the first of these that applies, in any state of the validator. */
  lemma RefusalsAre(id: string, sha: Hash, v: Progress, chunk: Option<Chunk>, sent: bool)
    ensures var err := Accept(id, sha, v, chunk, sent).1;
            if chunk.None? || v.final || chunk.value.artifactId != id || chunk.value.index != v.index then
              err == Some(InvalidSequence)
            else
              var c := chunk.value;
              var size := (v.size + |c.data|) % 0x1_0000_0000_0000_0000;
              if |c.data| > 0x4_0000 then err == Some(ChunkTooLarge)
              else if v.index == 0 && c.total == 0 && c.data != [] then err == Some(EmptyDescriptor)
              else if v.index == 0 && c.total > 0x2000_0000 then err == Some(ArtifactTooLarge)
              else if v.index == 0 && !IsHexDigest(c.sha256) then err == Some(InvalidDigest)
              else if v.index != 0 && Encode(c.artifactId, c.Described()) != v.metadata then
                err == Some(DescriptorChanged)
              else
                var total := if v.index == 0 then c.total else v.total;
                if size > total then err == Some(ExceedsDeclaredSize)
                else if c.final && (size != total || c.sha256 != HexEncode(sha(v.written + c.data))) then
                  err == Some(Mismatch)
                else if !c.final && size == total then err == Some(FinalMissing)
                else if !sent then err == Some(SendFailed)
                else err.None?
  {}

  // ----- Where the guarantee ends

  const ZEROES := seq(64, i => '0')

  /** A first chunk with version "v", NUL, "5" and a second one that is accepted as version "v" of five
      bytes. */
  lemma DescriptorChangeWitness(id: string, sha: Hash) returns (first: Chunk, c: Chunk)
    ensures first.version == "v" + [NUL] + "5" && c.version == "v" && c.total == 5
    ensures ValidPrefix(id, sha, [first]) && Redescribes(id, sha, [first], c)
  {
    first := Chunk(id, 0, "v" + [NUL] + "5", 1, ZEROES, [], false);
    assert [] + [first] == [first] && [] + first.data == [];
    FollowsIff(id, sha, [], first);
    assert Decimal(5) == "5" && "v" + [NUL] + Decimal(5) + "" == first.version;
    var e := Descriptor("v", 5, Decimal(1) + [NUL] + ZEROES);
    SameFields(id, first.Described(), e);
    c := Chunk(id, 1, e.version, e.total, e.sha256, [], false);
    EmptyChunkFollows(id, sha, [first], c);
  }

  lemma SameFields(id: string, d: Descriptor, e: Descriptor)
    requires d.version == e.version + [NUL] + Decimal(e.total)
    requires e.sha256 == Decimal(d.total) + [NUL] + d.sha256
    ensures Encode(id, d) == Encode(id, e)
  {
    EncodeFields(id, d, e);
    assert Fields(d) == e.version + [NUL] + Decimal(e.total) + [NUL] + (Decimal(d.total) + [NUL] + d.sha256);
  }

  /** An empty chunk that leaves room for more; legal at any point of a transfer. */
  ghost predicate Filler(id: string, c: Chunk) {
    c.artifactId == id && c.data == [] && !c.final && c.total > 0 && HeadDescribes(c)
  }

  ghost function Repeated(c: Chunk, k: nat): seq<Chunk> {
    seq(k, i requires 0 <= i => c.(index := i % UINT32))
  }

  lemma {:induction false} FillersAreValid(id: string, sha: Hash, c: Chunk, k: nat)
    requires Filler(id, c)
    ensures ValidPrefix(id, sha, Repeated(c, k)) && Concat(Repeated(c, k)) == []
  {
    if k > 0 {
      var cs, last := Repeated(c, k - 1), c.(index := (k - 1) % UINT32);
      FillersAreValid(id, sha, c, k - 1);
      assert Repeated(c, k) == cs + [last];
      FillerFollows(id, sha, c, k - 1);
      assert (cs + [last])[..k - 1] == cs;
      ConcatNext(cs, last);
    }
  }

  lemma FillerFollows(id: string, sha: Hash, c: Chunk, k: nat)
    requires Filler(id, c) && Concat(Repeated(c, k)) == []
    ensures Follows(id, sha, Repeated(c, k) + [c.(index := k % UINT32)])
  {
    var cs, last := Repeated(c, k), c.(index := k % UINT32);
    var head := (cs + [last])[Head(k)];
    assert head == c.(index := Head(k) % UINT32);
    assert head.Described() == last.Described() && head.artifactId == last.artifactId;
    assert k > 0 ==> cs[k - 1] == c.(index := (k - 1) % UINT32);
    assert [] + last.data == [];
    FollowsIff(id, sha, cs, last);
  }

  /** After 2^32 empty chunks the index is 0 again, and the next chunk may bring another descriptor:
      a run in which a later head does not repeat the first encoding. */
  lemma IndexWrapReplacesDescriptor(id: string, sha: Hash, c: Chunk, other: Chunk)
    requires Filler(id, c) && Filler(id, other) && other.index == 0 && other.Metadata() != c.Metadata()
    ensures var cs := Repeated(c, UINT32) + [other];
            ValidPrefix(id, sha, cs) && !HeadsRepeat(cs) && StateAfter(cs).metadata == other.Metadata()
  {
    var fillers := Repeated(c, UINT32);
    var cs := fillers + [other];
    FillersAreValid(id, sha, c, UINT32);
    assert cs[..UINT32] == fillers;
    FollowsIff(id, sha, fillers, other);
    assert cs[0].Metadata() == c.Metadata() && cs[UINT32] == other;
  }
}
