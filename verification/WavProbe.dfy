/** The check of an uploaded `.wav` file: a walk over the chunks of a RIFF/WAVE container, made on the
    whole file or on a bounded probe of its beginning.  The layout is that of chapter 2 of "Multimedia
    Programming Interface and Data Specifications 1.0". */
module WavProbe {
  import opened Wrappers

  type Bytes = seq<byte>

  datatype Verdict = Accepted | TooSmall | NoHeader | DeclaredTooLong | ChunkTooLong | NoFormat | NoAudio

  const RIFF: Bytes := [82, 73, 70, 70]
  const RF64: Bytes := [82, 70, 54, 52]
  const WAVE: Bytes := [87, 65, 86, 69]
  const FORMAT: Bytes := [102, 109, 116, 32]
  const DATA: Bytes := [100, 97, 116, 97]

  const WORD := 0x1_0000_0000

  /** `int.from_bytes(..., "little")` on four bytes. */
  function FromLittle(b: Bytes): (n: nat)
    requires |b| == 4
    ensures n < WORD
  {
    b[0] as int + 256 * (b[1] as int + 256 * (b[2] as int + 256 * (b[3] as int)))
  }

  function Little(n: nat): (b: Bytes)
    requires n < WORD
    ensures |b| == 4 && FromLittle(b) == n
  {
    var q := n / 256;
    var r := q / 256;
    [(n % 256) as byte, (q % 256) as byte, (r % 256) as byte, (r / 256) as byte]
  }

  // ----- the walk --------------------------------------------------------------------------------

  /** What the chunk walk finds from an offset on. */
  datatype Scan = Overrun | Found(format: bool, audio: bool)

  predicate IsFormat(id: Bytes, size: nat) {
    id == FORMAT && size >= 16
  }

  predicate IsAudio(id: Bytes, size: nat) {
    id == DATA && size > 0
  }

  function With(format: bool, audio: bool, rest: Scan): Scan {
    match rest
    case Overrun => Overrun
    case Found(f, a) => Found(format || f, audio || a)
  }

  function ScanFrom(probe: Bytes, size: nat, offset: nat): Scan
    decreases |probe| - offset
  {
    if offset + 8 > |probe| then Found(false, false)
    else
      var id, n := probe[offset..offset + 4], FromLittle(probe[offset + 4..offset + 8]);
      if offset + 8 + n > size then Overrun
      else With(IsFormat(id, n), IsAudio(id, n), ScanFrom(probe, size, offset + 8 + n + n % 2))
  }

  /** The bytes start like a WAVE container whose declared size is not more than the real one. */
  predicate Header(probe: Bytes, size: nat) {
    && 12 <= |probe| && 12 <= size
    && probe[..4] in {RIFF, RF64} && probe[8..12] == WAVE
    && (probe[..4] == RIFF ==> FromLittle(probe[4..8]) + 8 <= size)
  }

  /** The verdict on a container with a good header. */
  function Judged(scan: Scan, whole: bool): Verdict {
    if scan.Overrun? then ChunkTooLong
    else if whole && !scan.format then NoFormat
    else if whole && !scan.audio then NoAudio
    else Accepted
  }

  /** What is wrong with the header, if anything. */
  function HeaderVerdict(probe: Bytes, size: nat): (v: Verdict)
    ensures v.Accepted? <==> Header(probe, size)
  {
    if |probe| < 12 || size < 12 then TooSmall
    else if probe[..4] !in {RIFF, RF64} || probe[8..12] != WAVE then NoHeader
    else if probe[..4] == RIFF && FromLittle(probe[4..8]) + 8 > size then DeclaredTooLong
    else Accepted
  }

  /** The verdict on a probe of a file of `size` bytes. */
  function Check(probe: Bytes, size: nat): Verdict {
    if !Header(probe, size) then HeaderVerdict(probe, size)
    else Judged(ScanFrom(probe, size, 12), size <= |probe|)
  }

  /** The loop of `_wav_errors`. */
  method WalkChunks(probe: Bytes, size: nat) returns (scan: Scan)
    requires 12 <= |probe|
    ensures scan == ScanFrom(probe, size, 12)
  {
    hide FromLittle;
    var foundFormat, foundAudio, offset := false, false, 12;
    while offset + 8 <= |probe|
      invariant ScanFrom(probe, size, 12) == With(foundFormat, foundAudio, ScanFrom(probe, size, offset))
      decreases |probe| - offset
    {
      var id := probe[offset..offset + 4];
      var chunkSize := FromLittle(probe[offset + 4..offset + 8]);
      var end := offset + 8 + chunkSize;
      if end > size {
        return Overrun;
      }
      if id == FORMAT && chunkSize >= 16 {
        foundFormat := true;
      } else if id == DATA && chunkSize > 0 {
        foundAudio := true;
      }
      offset := end + chunkSize % 2;
      if offset > |probe| {
        break;
      }
    }
    return Found(foundFormat, foundAudio);
  }

  /** `_wav_errors`: the first error, or none. */
  method WavErrors(probe: Bytes, size: nat) returns (v: Verdict)
    ensures v == Check(probe, size)
  {
    if size < 12 || |probe| < 12 {
      return TooSmall;
    }
    var container := probe[..4];
    if (container != RIFF && container != RF64) || probe[8..12] != WAVE {
      return NoHeader;
    }
    if container == RIFF {
      var declared := FromLittle(probe[4..8]) + 8;
      if declared > size {
        return DeclaredTooLong;
      }
    }
    var scan := WalkChunks(probe, size);
    if scan.Overrun? {
      return ChunkTooLong;
    }
    if size <= |probe| {
      if !scan.format {
        return NoFormat;
      }
      if !scan.audio {
        return NoAudio;
      }
    }
    return Accepted;
  }

  // ----- which files are accepted ----------------------------------------------------------------

  /** A chunk: four bytes of name and a body that a 32-bit size can describe. */
  datatype Chunk = Chunk(id: Bytes, body: Bytes)

  predicate Sized(c: Chunk) {
    |c.id| == 4 && |c.body| < WORD
  }

  predicate AllSized(chunks: seq<Chunk>) {
    forall i :: 0 <= i < |chunks| ==> Sized(chunks[i])
  }

  predicate HasFormat(chunks: seq<Chunk>) {
    exists c :: c in chunks && c.id == FORMAT && |c.body| >= 16
  }

  predicate HasAudio(chunks: seq<Chunk>) {
    exists c :: c in chunks && c.id == DATA && c.body != []
  }

  /** The payload is these chunks one after the other, odd bodies padded with a byte of any value, and
      fewer than eight bytes after them; only the very last pad byte may be missing. */
  ghost predicate LaidOut(payload: Bytes, chunks: seq<Chunk>)
    decreases |chunks|
  {
    if chunks == [] then |payload| < 8
    else
      var c := chunks[0];
      var end := 8 + |c.body|;
      && end <= |payload|
      && c.id == payload[..4] && |c.body| == FromLittle(payload[4..8]) && c.body == payload[8..end]
      && if end + |c.body| % 2 > |payload| then chunks == [c] else LaidOut(payload[end + |c.body| % 2..], chunks[1..])
  }

  /** The walk over a whole file finds what its chunks hold. */
  lemma {:induction false} LaidOutIsFound(file: Bytes, offset: nat, chunks: seq<Chunk>)
    requires offset <= |file| && LaidOut(file[offset..], chunks)
    ensures ScanFrom(file, |file|, offset) == Found(HasFormat(chunks), HasAudio(chunks))
    decreases |chunks|
  {
    hide FromLittle, HasFormat, HasAudio;
    NoFlags();
    if chunks != [] {
      var c := chunks[0];
      var next := offset + 8 + |c.body| + |c.body| % 2;
      SameHead(file, offset);
      SplitFlags(chunks);
      if next <= |file| {
        assert file[offset..][next - offset..] == file[next..];
        LaidOutIsFound(file, next, chunks[1..]);
      } else {
        assert chunks[1..] == [];
      }
    }
  }

  lemma NoFlags()
    ensures !HasFormat([]) && !HasAudio([])
  {
  }

  lemma {:induction false} SameHead(file: Bytes, offset: nat)
    requires offset + 8 <= |file|
    ensures file[offset..][..4] == file[offset..offset + 4] && file[offset..][4..8] == file[offset + 4..offset + 8]
  {
  }

  lemma {:induction false} SplitFlags(chunks: seq<Chunk>)
    requires chunks != []
    ensures HasFormat(chunks) == (IsFormat(chunks[0].id, |chunks[0].body|) || HasFormat(chunks[1..]))
    ensures HasAudio(chunks) == (IsAudio(chunks[0].id, |chunks[0].body|) || HasAudio(chunks[1..]))
  {
    assert chunks == [chunks[0]] + chunks[1..];
    assert forall c :: c in chunks <==> c == chunks[0] || c in chunks[1..];
  }

  /** A walk that does not overrun has read a list of chunks. */
  lemma {:induction false} FoundIsLaidOut(file: Bytes, offset: nat) returns (chunks: seq<Chunk>)
    requires offset <= |file| && ScanFrom(file, |file|, offset).Found?
    ensures LaidOut(file[offset..], chunks)
    decreases |file| - offset
  {
    hide FromLittle;
    if offset + 8 > |file| {
      return [];
    }
    SameHead(file, offset);
    var n := FromLittle(file[offset + 4..offset + 8]);
    var c := Chunk(file[offset..offset + 4], file[offset + 8..offset + 8 + n]);
    assert file[offset..][8..8 + n] == c.body;
    var next := offset + 8 + n + n % 2;
    if next > |file| {
      return [c];
    }
    var rest := FoundIsLaidOut(file, next);
    assert file[offset..][next - offset..] == file[next..];
    chunks := [c] + rest;
    assert chunks[1..] == rest;
  }

  /** The whole-file check on any bytes: accepted exactly when the header is good and the rest is a list
      of chunks with a format chunk of at least 16 bytes and a non-empty data chunk. */
  lemma {:induction false} AcceptedExactly(file: Bytes)
    ensures Check(file, |file|).Accepted? <==>
      Header(file, |file|) && exists chunks :: LaidOut(file[12..], chunks) && HasFormat(chunks) && HasAudio(chunks)
  {
    if !Header(file, |file|) {
      return;
    }
    if chunks :| LaidOut(file[12..], chunks) && HasFormat(chunks) && HasAudio(chunks) {
      LaidOutIsFound(file, 12, chunks);
    }
    if ScanFrom(file, |file|, 12).Found? {
      var chunks := FoundIsLaidOut(file, 12);
      LaidOutIsFound(file, 12, chunks);
    }
  }

  // ----- serialised files ------------------------------------------------------------------------

  /** Name, size, body and, after an odd body, a zero byte. */
  function EncodedChunk(c: Chunk): Bytes
    requires Sized(c)
  {
    c.id + Little(|c.body|) + c.body + if |c.body| % 2 == 1 then [0] else []
  }

  lemma {:induction false} PiecesOfChunk(c: Chunk, rest: Bytes)
    requires Sized(c)
    ensures var payload := EncodedChunk(c) + rest; var end := 8 + |c.body|; var next := end + |c.body| % 2;
      && next <= |payload| && payload[..4] == c.id && payload[4..8] == Little(|c.body|) && payload[8..end] == c.body
      && payload[next..] == rest
  {
  }

  function Encoded(chunks: seq<Chunk>): Bytes
    requires AllSized(chunks)
  {
    if chunks == [] then []
    else EncodedChunk(chunks[0]) + Encoded(chunks[1..])
  }

  /** The RIFF/WAVE file with these chunks. */
  function WaveFile(chunks: seq<Chunk>): Bytes
    requires AllSized(chunks)
    requires |Encoded(chunks)| + 4 < WORD
  {
    RIFF + Little(|Encoded(chunks)| + 4) + WAVE + Encoded(chunks)
  }

  lemma {:induction false} EncodedIsLaidOut(chunks: seq<Chunk>)
    requires AllSized(chunks)
    ensures LaidOut(Encoded(chunks), chunks)
    decreases |chunks|
  {
    if chunks != [] {
      EncodedIsLaidOut(chunks[1..]);
      PiecesOfChunk(chunks[0], Encoded(chunks[1..]));
    }
  }

  /** Every serialised file gets the verdict its chunks deserve. */
  lemma {:induction false} SerialisedVerdict(chunks: seq<Chunk>)
    requires AllSized(chunks)
    requires |Encoded(chunks)| + 4 < WORD
    ensures var file := WaveFile(chunks);
      Check(file, |file|) == if !HasFormat(chunks) then NoFormat else if !HasAudio(chunks) then NoAudio else Accepted
  {
    var file := WaveFile(chunks);
    assert file[..4] == RIFF && file[4..8] == Little(|Encoded(chunks)| + 4) && file[8..12] == WAVE;
    assert file[12..] == Encoded(chunks);
    EncodedIsLaidOut(chunks);
    LaidOutIsFound(file, 12, chunks);
  }

  // ----- probes ----------------------------------------------------------------------------------

  lemma {:induction false} ProbeOverrunsLess(file: Bytes, k: nat, offset: nat)
    requires k <= |file| && ScanFrom(file[..k], |file|, offset).Overrun?
    ensures ScanFrom(file, |file|, offset).Overrun?
    decreases |file| - offset
  {
    assert file[..k][offset..offset + 4] == file[offset..offset + 4];
    assert file[..k][offset + 4..offset + 8] == file[offset + 4..offset + 8];
    var n := FromLittle(file[offset + 4..offset + 8]);
    if offset + 8 + n <= |file| {
      ProbeOverrunsLess(file, k, offset + 8 + n + n % 2);
    }
  }

  /** A probe of at least 12 bytes that is not the whole file is accepted, or gets the very verdict that
      the whole file gets: it rejects only files that the whole-file check rejects. */
  lemma {:induction false} ProbeNeverMisjudges(file: Bytes, k: nat)
    requires 12 <= k < |file|
    ensures Check(file[..k], |file|).Accepted? || Check(file[..k], |file|) == Check(file, |file|)
  {
    assert file[..k][..4] == file[..4] && file[..k][4..8] == file[4..8] && file[..k][8..12] == file[8..12];
    if ScanFrom(file[..k], |file|, 12).Overrun? {
      ProbeOverrunsLess(file, k, 12);
    }
  }

  // ----- which chunk is too long -----------------------------------------------------------------

  /** From an offset on, the bytes are these chunks one after the other, padded, and the next one would
      start at `at`. */
  ghost predicate Precede(file: Bytes, offset: nat, chunks: seq<Chunk>, at: nat)
    decreases |chunks|
  {
    if chunks == [] then at == offset
    else
      var c := chunks[0];
      var end := offset + 8 + |c.body|;
      && end <= |file|
      && c.id == file[offset..offset + 4] && |c.body| == FromLittle(file[offset + 4..offset + 8]) && c.body == file[offset + 8..end]
      && Precede(file, end + |c.body| % 2, chunks[1..], at)
  }

  /** The eight bytes at `at` are in the first `k` and head a chunk that ends beyond the file. */
  predicate TooLongAt(file: Bytes, k: nat, at: nat) {
    at + 8 <= k <= |file| && at + 8 + FromLittle(file[at + 4..at + 8]) > |file|
  }

  ghost predicate HasTooLong(file: Bytes, k: nat, offset: nat) {
    exists chunks, at :: Precede(file, offset, chunks, at) && TooLongAt(file, k, at)
  }

  /** The walk over the first `k` bytes overruns exactly when it comes to the head of such a chunk. */
  lemma {:induction false} OverrunExactly(file: Bytes, k: nat, offset: nat)
    requires k <= |file|
    ensures ScanFrom(file[..k], |file|, offset).Overrun? <==> HasTooLong(file, k, offset)
    decreases |file| - offset
  {
    if offset + 8 > k {
      if chunks, at :| Precede(file, offset, chunks, at) && TooLongAt(file, k, at) {
        PrecedeIsAfter(file, offset, chunks, at);
      }
    } else {
      assert file[..k][offset..offset + 4] == file[offset..offset + 4];
      assert file[..k][offset + 4..offset + 8] == file[offset + 4..offset + 8];
      var n := FromLittle(file[offset + 4..offset + 8]);
      if offset + 8 + n > |file| {
        assert Precede(file, offset, [], offset) && TooLongAt(file, k, offset);
      } else {
        OverrunExactly(file, k, offset + 8 + n + n % 2);
        OneChunkOn(file, k, offset);
      }
    }
  }

  lemma {:induction false} PrecedeIsAfter(file: Bytes, offset: nat, chunks: seq<Chunk>, at: nat)
    requires Precede(file, offset, chunks, at)
    ensures offset <= at
    decreases |chunks|
  {
    if chunks != [] {
      PrecedeIsAfter(file, offset + 8 + |chunks[0].body| + |chunks[0].body| % 2, chunks[1..], at);
    }
  }

  /** Past a chunk that fits. */
  lemma {:induction false} OneChunkOn(file: Bytes, k: nat, offset: nat)
    requires offset + 8 <= k <= |file|
    requires offset + 8 + FromLittle(file[offset + 4..offset + 8]) <= |file|
    ensures var n := FromLittle(file[offset + 4..offset + 8]);
      HasTooLong(file, k, offset) <==> HasTooLong(file, k, offset + 8 + n + n % 2)
  {
    var n := FromLittle(file[offset + 4..offset + 8]);
    var next := offset + 8 + n + n % 2;
    hide FromLittle, Precede;
    if chunks, at :| Precede(file, next, chunks, at) && TooLongAt(file, k, at) {
      var all := PutBefore(file, offset, chunks, at);
    }
    if chunks, at :| Precede(file, offset, chunks, at) && TooLongAt(file, k, at) {
      LeaveFirst(file, k, offset, chunks, at);
    }
  }

  lemma {:induction false} PutBefore(file: Bytes, offset: nat, chunks: seq<Chunk>, at: nat) returns (all: seq<Chunk>)
    requires offset + 8 <= |file| && offset + 8 + FromLittle(file[offset + 4..offset + 8]) <= |file|
    requires var n := FromLittle(file[offset + 4..offset + 8]); Precede(file, offset + 8 + n + n % 2, chunks, at)
    ensures Precede(file, offset, all, at)
  {
    hide FromLittle;
    var n := FromLittle(file[offset + 4..offset + 8]);
    all := [Chunk(file[offset..offset + 4], file[offset + 8..offset + 8 + n])] + chunks;
    assert all[1..] == chunks;
  }

  lemma {:induction false} LeaveFirst(file: Bytes, k: nat, offset: nat, chunks: seq<Chunk>, at: nat)
    requires offset + 8 <= k <= |file| && offset + 8 + FromLittle(file[offset + 4..offset + 8]) <= |file|
    requires Precede(file, offset, chunks, at) && TooLongAt(file, k, at)
    ensures var n := FromLittle(file[offset + 4..offset + 8]); chunks != [] && Precede(file, offset + 8 + n + n % 2, chunks[1..], at)
  {
    hide FromLittle;
  }

  /** A partial probe of at least 12 bytes gets the whole file's own verdict when the header is bad; with a
      good header it is refused exactly when some chunk whose head lies in the probe, the chunks before it
      laid out in the file, ends beyond the file. */
  lemma {:induction false} ProbeExactly(file: Bytes, k: nat)
    requires 12 <= k < |file|
    ensures !Header(file, |file|) ==> Check(file[..k], |file|) == Check(file, |file|) && !Check(file, |file|).Accepted?
    ensures Header(file, |file|) ==>
      Check(file[..k], |file|) == if HasTooLong(file, k, 12) then ChunkTooLong else Accepted
  {
    assert file[..k][..4] == file[..4] && file[..k][4..8] == file[4..8] && file[..k][8..12] == file[8..12];
    OverrunExactly(file, k, 12);
  }

  /** Every verdict on a whole file, by what its bytes are. */
  lemma {:induction false} VerdictIsExplained(file: Bytes)
    ensures var v := Check(file, |file|); var named := |file| >= 12 && file[..4] in {RIFF, RF64} && file[8..12] == WAVE;
      && (v == TooSmall <==> |file| < 12)
      && (v == NoHeader <==> |file| >= 12 && !named)
      && (v == DeclaredTooLong <==> named && file[..4] == RIFF && FromLittle(file[4..8]) + 8 > |file|)
      && (v == ChunkTooLong <==> Header(file, |file|) && HasTooLong(file, |file|, 12))
      && (v == NoFormat <==> Header(file, |file|) && exists chunks :: LaidOut(file[12..], chunks) && !HasFormat(chunks))
      && (v == NoAudio <==> Header(file, |file|) && exists chunks :: LaidOut(file[12..], chunks) && HasFormat(chunks) && !HasAudio(chunks))
  {
    if Header(file, |file|) {
      assert file[..|file|] == file;
      OverrunExactly(file, |file|, 12);
      hide HasTooLong, LaidOut, HasFormat, HasAudio;
      forall chunks | LaidOut(file[12..], chunks)
        ensures ScanFrom(file, |file|, 12) == Found(HasFormat(chunks), HasAudio(chunks))
      {
        LaidOutIsFound(file, 12, chunks);
      }
      if ScanFrom(file, |file|, 12).Found? {
        var chunks := FoundIsLaidOut(file, 12);
      }
    }
  }
}
