/**
 * The background jobs of src/compression.rs: the 64 KiB chunk loop, the `run`
 * closures of `start_compression` and `start_decompression`, and the match that
 * turns their `Ok`/`Err` into the one terminal message.
 *
 * The thread and the channel are abstracted: a job runs to completion and returns
 * the messages it sent, in order. The file system, the reader and the writer are
 * inputs: each fallible step carries its own outcome, the reads are a script of
 * chunks or failures, and the writes a script of outcomes. The zstd codec is a
 * function parameter.
 */
module Engine {
  import opened Base
  import opened Protocol

  newtype byte = x: int | 0 <= x < 256

  /** Size of the read buffer (compression.rs, lines 18 and 70). */
  const CHUNK_SIZE: nat := 64 * 1024

  /** What one `read(&mut buffer)` call returns: the bytes it put in the buffer, or an error. */
  datatype ReadResult = Data(bytes: seq<byte>) | ReadFailed(error: string)

  /** `Read::read` never returns more bytes than the buffer holds. */
  predicate ChunksFit(source: seq<ReadResult>) {
    forall i :: 0 <= i < |source| && source[i].Data? ==> |source[i].bytes| <= CHUNK_SIZE
  }

  /** The k-th read; past the end of the script the stream is at its end and a read yields 0 bytes. */
  function ReadAt(source: seq<ReadResult>, k: nat): ReadResult {
    if k < |source| then source[k] else Data([])
  }

  /** The k-th `write_all`; past the end of the script every write succeeds. */
  function WriteAt(writes: seq<Outcome>, k: nat): Outcome {
    if k < |writes| then writes[k] else Pass
  }

  /** Iteration k of the loop runs to its end: the read yields bytes and writing them succeeds. */
  predicate Completes(source: seq<ReadResult>, writes: seq<Outcome>, k: nat) {
    ReadAt(source, k).Data? && |ReadAt(source, k).bytes| > 0 && WriteAt(writes, k).Pass?
  }

  /** The first iteration at or after k that does not run to its end. */
  function StopFrom(source: seq<ReadResult>, writes: seq<Outcome>, k: nat): (n: nat)
    requires k <= |source|
    ensures k <= n <= |source|
    ensures forall i :: k <= i < n ==> Completes(source, writes, i)
    ensures forall i :: k <= i < n ==> source[i].Data? && |source[i].bytes| > 0
    ensures !Completes(source, writes, n)
    decreases |source| - k
  {
    if Completes(source, writes, k) then StopFrom(source, writes, k + 1) else k
  }

  /** Number of iterations the loop completes: every earlier one completes and this one does not. */
  function Stop(source: seq<ReadResult>, writes: seq<Outcome>): (n: nat)
    ensures n <= |source|
    ensures forall i :: 0 <= i < n ==> Completes(source, writes, i)
    ensures forall i :: 0 <= i < n ==> source[i].Data? && |source[i].bytes| > 0
    ensures !Completes(source, writes, n)
  {
    StopFrom(source, writes, 0)
  }

  /** The loop stops at k exactly when every earlier iteration completes and iteration k does not. */
  lemma StopAt(source: seq<ReadResult>, writes: seq<Outcome>, k: nat)
    requires forall i :: 0 <= i < k ==> Completes(source, writes, i)
    requires !Completes(source, writes, k)
    ensures Stop(source, writes) == k
  {
  }

  /** The bytes of the first n reads, in order. */
  function Fed(source: seq<ReadResult>, n: nat): seq<byte>
    requires n <= |source|
    requires forall i :: 0 <= i < n ==> source[i].Data?
  {
    if n == 0 then [] else Fed(source, n - 1) + source[n - 1].bytes
  }

  /** The bytes the loop hands to its sink: those of every completed iteration. */
  function Yield(source: seq<ReadResult>, writes: seq<Outcome>): seq<byte> {
    Fed(source, Stop(source, writes))
  }

  /**
   * Why the loop ends: `None` for a read of 0 bytes (the end of the stream),
   * otherwise the error of the read or of the write that failed.
   */
  function LoopFailure(source: seq<ReadResult>, writes: seq<Outcome>): Option<string> {
    var n := Stop(source, writes);
    match ReadAt(source, n)
    case ReadFailed(e) => Some(e)
    case Data(b) => if |b| == 0 then None else Some(WriteAt(writes, n).error)
  }

  /** A shorter run of reads feeds a prefix; with non-empty chunks, a strictly shorter one. */
  lemma {:induction false} FedPrefix(source: seq<ReadResult>, i: nat, j: nat)
    requires i <= j <= |source|
    requires forall k :: 0 <= k < j ==> source[k].Data? && |source[k].bytes| > 0
    ensures Fed(source, i) <= Fed(source, j)
    ensures i < j ==> |Fed(source, i)| < |Fed(source, j)|
  {
    if i < j {
      FedPrefix(source, i, j - 1);
    }
  }

  /** The Progress messages the loop sends: one per completed iteration, with the running byte count. */
  predicate IsProgressLog(source: seq<ReadResult>, writes: seq<Outcome>, log: seq<CompressMessage>, total: nat) {
    |log| == Stop(source, writes) &&
    forall i :: 0 <= i < |log| ==> log[i] == Progress(|Fed(source, i + 1)|, total)
  }

  /** The loop's Progress counts strictly increase. */
  lemma ProgressLogIncreasing(source: seq<ReadResult>, writes: seq<Outcome>, log: seq<CompressMessage>, total: nat)
    requires IsProgressLog(source, writes, log, total)
    ensures ProgressIncreasing(log)
  {
    forall i, j | 0 <= i < j < |log| && log[i].Progress? && log[j].Progress?
      ensures log[i].bytesProcessed < log[j].bytesProcessed
    {
      FedPrefix(source, i + 1, j + 1);
    }
  }

  /** Each Progress count is at most one chunk past the one before (the first past 0). */
  lemma ProgressLogSteps(source: seq<ReadResult>, writes: seq<Outcome>, log: seq<CompressMessage>, total: nat)
    requires ChunksFit(source)
    requires IsProgressLog(source, writes, log, total)
    ensures |log| > 0 ==> 0 < log[0].bytesProcessed <= CHUNK_SIZE
    ensures forall i :: 0 < i < |log| ==> log[i].bytesProcessed - log[i - 1].bytesProcessed <= CHUNK_SIZE
  {
    if |log| > 0 {
      assert Fed(source, 1) == Fed(source, 0) + source[0].bytes;
    }
    forall i | 0 < i < |log|
      ensures log[i].bytesProcessed - log[i - 1].bytesProcessed <= CHUNK_SIZE
    {
      assert Fed(source, i + 1) == Fed(source, i) + source[i].bytes;
    }
  }

  /**
   * The loop's Progress messages all carry the same total, report strictly increasing
   * counts that grow by at most one chunk each, and the last reports every byte handed on.
   */
  lemma ProgressLogShape(source: seq<ReadResult>, writes: seq<Outcome>, log: seq<CompressMessage>, total: nat)
    requires ChunksFit(source)
    requires IsProgressLog(source, writes, log, total)
    ensures ProgressTotal(log, total)
    ensures ProgressIncreasing(log)
    ensures |log| > 0 ==> 0 < log[0].bytesProcessed <= CHUNK_SIZE
    ensures forall i :: 0 < i < |log| ==> log[i].bytesProcessed - log[i - 1].bytesProcessed <= CHUNK_SIZE
    ensures |log| > 0 ==> log[|log| - 1].bytesProcessed == |Yield(source, writes)|
  {
    ProgressLogIncreasing(source, writes, log, total);
    ProgressLogSteps(source, writes, log, total);
  }

  /**
   * The chunk loop (compression.rs lines 21-32 and 73-84): read into a 64 KiB buffer,
   * stop on a read of 0 bytes, otherwise write the bytes read, add their number to
   * `bytes_processed` and send one Progress message. A failing read or write ends
   * the loop at once with that error.
   */
  method CopyChunks(source: seq<ReadResult>, writes: seq<Outcome>, totalBytes: nat)
    returns (sent: seq<CompressMessage>, sink: seq<byte>, failure: Option<string>)
    requires ChunksFit(source)
    ensures IsProgressLog(source, writes, sent, totalBytes)
    ensures sink == Yield(source, writes)
    ensures failure == LoopFailure(source, writes)
  {
    var buffer := new byte[CHUNK_SIZE];
    var bytesProcessed: nat := 0;
    sent, sink := [], [];
    var k: nat := 0;
    while true
      invariant k <= |source|
      invariant forall i :: 0 <= i < k ==> Completes(source, writes, i)
      invariant forall i :: 0 <= i < k ==> source[i].Data? && |source[i].bytes| > 0
      invariant |sent| == k
      invariant forall i :: 0 <= i < k ==> sent[i] == Progress(|Fed(source, i + 1)|, totalBytes)
      invariant sink == Fed(source, k)
      invariant bytesProcessed == |sink|
      decreases |source| - k
    {
      var r := ReadAt(source, k);
      if r.ReadFailed? {
        failure := Some(r.error);
        StopAt(source, writes, k);
        return;
      }
      var bytesRead := |r.bytes|;
      forall i | 0 <= i < bytesRead {
        buffer[i] := r.bytes[i];
      }
      if bytesRead == 0 {
        failure := None;
        StopAt(source, writes, k);
        return;
      }
      var written := WriteAt(writes, k);
      if written.Fail? {
        failure := Some(written.error);
        StopAt(source, writes, k);
        return;
      }
      assert buffer[..bytesRead] == source[k].bytes;
      sink := sink + buffer[..bytesRead];
      bytesProcessed := bytesProcessed + bytesRead;
      sent := sent + [Progress(bytesProcessed, totalBytes)];
      k := k + 1;
    }
  }

  // ----- compression -------------------------------------------------------------

  /**
   * The outcomes of the steps of a compression job: opening the input, reading its
   * metadata length, creating the output, creating the encoder, the reads of the
   * input and the writes into the encoder, `encoder.finish()`, and reading the
   * output's metadata.
   */
  datatype CompressEnv = CompressEnv(
    openInput: Outcome,
    inputLength: Result<nat>,
    createOutput: Outcome,
    newEncoder: Outcome,
    source: seq<ReadResult>,
    writes: seq<Outcome>,
    finish: Outcome,
    outputLength: Outcome)

  /** Every step before the loop succeeds. */
  predicate CompressReachesLoop(env: CompressEnv) {
    env.openInput.Pass? && env.inputLength.Ok? && env.createOutput.Pass? && env.newEncoder.Pass?
  }

  /** The error of the first failing step, in the order the `?`s meet them; `None` if none fails. */
  function CompressFailure(env: CompressEnv): Option<string> {
    if env.openInput.Fail? then Some(env.openInput.error)
    else if env.inputLength.Err? then Some(env.inputLength.error)
    else if env.createOutput.Fail? then Some(env.createOutput.error)
    else if env.newEncoder.Fail? then Some(env.newEncoder.error)
    else if LoopFailure(env.source, env.writes).Some? then LoopFailure(env.source, env.writes)
    else if env.finish.Fail? then Some(env.finish.error)
    else if env.outputLength.Fail? then Some(env.outputLength.error)
    else None
  }

  /**
   * The `run` closure of `start_compression` (compression.rs lines 12-37). It returns
   * the Progress messages sent, the bytes handed to the encoder, and its result
   * `(total_bytes, compressed_size, output_path)`. The compressed file is the encoding
   * of everything handed to the encoder, and its size is read only after `finish`.
   */
  method CompressRun(env: CompressEnv, encode: seq<byte> -> seq<byte>, outputPath: string)
    returns (progress: seq<CompressMessage>, fed: seq<byte>, result: Result<(nat, nat, string)>)
    requires ChunksFit(env.source)
    ensures CompressReachesLoop(env) ==> IsProgressLog(env.source, env.writes, progress, env.inputLength.value)
    ensures !CompressReachesLoop(env) ==> progress == []
    ensures fed == (if CompressReachesLoop(env) then Yield(env.source, env.writes) else [])
    ensures result == match CompressFailure(env)
                      case Some(e) => Err(e)
                      case None => Ok((env.inputLength.value, |encode(fed)|, outputPath))
  {
    progress, fed := [], [];
    if env.openInput.Fail? {
      return progress, fed, Err(env.openInput.error);
    }
    if env.inputLength.Err? {
      return progress, fed, Err(env.inputLength.error);
    }
    var totalBytes := env.inputLength.value;
    if env.createOutput.Fail? {
      return progress, fed, Err(env.createOutput.error);
    }
    if env.newEncoder.Fail? {
      return progress, fed, Err(env.newEncoder.error);
    }
    var failure;
    progress, fed, failure := CopyChunks(env.source, env.writes, totalBytes);
    if failure.Some? {
      return progress, fed, Err(failure.value);
    }
    if env.finish.Fail? {
      return progress, fed, Err(env.finish.error);
    }
    if env.outputLength.Fail? {
      return progress, fed, Err(env.outputLength.error);
    }
    var compressedSize := |encode(fed)|;
    result := Ok((totalBytes, compressedSize, outputPath));
  }

  /** The terminal message for a job's result (compression.rs lines 39-50 and 91-102). */
  function Terminal(result: Result<(nat, nat, string)>): (m: CompressMessage)
    ensures m.IsTerminal()
    ensures result.Ok? <==> m.Finished?
  {
    match result
    case Ok((a, b, path)) => Finished(a, b, path)
    case Err(e) => Error(e)
  }

  /**
   * The compression thread: the messages it sends. They form a well-formed stream
   * whose Progress counts strictly increase and all carry the input's metadata
   * length; the last Progress reports every byte handed to the encoder; the stream
   * ends in `Finished(total_bytes, size of the encoded output, output path)` when
   * no step fails and in `Error` with the first failure's message otherwise.
   */
  method RunCompression(env: CompressEnv, encode: seq<byte> -> seq<byte>, outputPath: string)
    returns (sent: seq<CompressMessage>, fed: seq<byte>)
    requires ChunksFit(env.source)
    ensures WellFormedStream(sent)
    ensures ProgressIncreasing(sent)
    ensures env.inputLength.Ok? ==> ProgressTotal(sent, env.inputLength.value)
    ensures CompressReachesLoop(env) ==> IsProgressLog(env.source, env.writes, sent[..|sent| - 1], env.inputLength.value)
    ensures !CompressReachesLoop(env) ==> |sent| == 1
    ensures fed == (if CompressReachesLoop(env) then Yield(env.source, env.writes) else [])
    ensures |sent| > 1 ==> sent[|sent| - 2].bytesProcessed == |fed|
    ensures sent[|sent| - 1] == match CompressFailure(env)
                                case Some(e) => Error(e)
                                case None => Finished(env.inputLength.value, |encode(fed)|, outputPath)
  {
    var progress, result;
    progress, fed, result := CompressRun(env, encode, outputPath);
    if CompressReachesLoop(env) {
      ProgressLogShape(env.source, env.writes, progress, env.inputLength.value);
    }
    sent := progress + [Terminal(result)];
  }

  // ----- decompression -----------------------------------------------------------

  /**
   * The outcomes of the steps of a decompression job: opening the input, reading its
   * metadata length (the compressed size), creating the decoder (which rejects input
   * that is not zstd), creating the output, the reads from the decoder and the writes
   * into the output file.
   */
  datatype DecompressEnv = DecompressEnv(
    openInput: Outcome,
    inputLength: Result<nat>,
    newDecoder: Outcome,
    createOutput: Outcome,
    source: seq<ReadResult>,
    writes: seq<Outcome>)

  /** Every step before the loop succeeds; only then is the output file created. */
  predicate DecompressReachesLoop(env: DecompressEnv) {
    env.openInput.Pass? && env.inputLength.Ok? && env.newDecoder.Pass? && env.createOutput.Pass?
  }

  /** The error of the first failing step; `None` if none fails. */
  function DecompressFailure(env: DecompressEnv): Option<string> {
    if env.openInput.Fail? then Some(env.openInput.error)
    else if env.inputLength.Err? then Some(env.inputLength.error)
    else if env.newDecoder.Fail? then Some(env.newDecoder.error)
    else if env.createOutput.Fail? then Some(env.createOutput.error)
    else LoopFailure(env.source, env.writes)
  }

  /**
   * The `run` closure of `start_decompression` (compression.rs lines 62-89). It returns
   * the Progress messages sent, the output file's contents if it was created (the
   * decoded bytes written so far, also when a later step fails), and its result
   * `(compressed_size, bytes_processed, output_path)`.
   */
  method DecompressRun(env: DecompressEnv, outputPath: string)
    returns (progress: seq<CompressMessage>, output: Option<seq<byte>>, result: Result<(nat, nat, string)>)
    requires ChunksFit(env.source)
    ensures DecompressReachesLoop(env) ==> IsProgressLog(env.source, env.writes, progress, env.inputLength.value)
    ensures !DecompressReachesLoop(env) ==> progress == []
    ensures output == (if DecompressReachesLoop(env) then Some(Yield(env.source, env.writes)) else None)
    ensures result == match DecompressFailure(env)
                      case Some(e) => Err(e)
                      case None => Ok((env.inputLength.value, |Yield(env.source, env.writes)|, outputPath))
  {
    progress, output := [], None;
    if env.openInput.Fail? {
      return progress, output, Err(env.openInput.error);
    }
    if env.inputLength.Err? {
      return progress, output, Err(env.inputLength.error);
    }
    var compressedSize := env.inputLength.value;
    if env.newDecoder.Fail? {
      return progress, output, Err(env.newDecoder.error);
    }
    if env.createOutput.Fail? {
      return progress, output, Err(env.createOutput.error);
    }
    var written, failure;
    progress, written, failure := CopyChunks(env.source, env.writes, compressedSize);
    output := Some(written);
    if failure.Some? {
      return progress, output, Err(failure.value);
    }
    var bytesProcessed := |written|;
    result := Ok((compressedSize, bytesProcessed, outputPath));
  }

  /**
   * The decompression thread: the messages it sends and the output file. The stream
   * is well formed, its counts strictly increase and all Progress carry the
   * compressed size as total. Its `Finished` swaps the meaning of the two sizes:
   * `original_size` holds the compressed input's size and `compressed_size` the
   * number of decompressed bytes, which is the output file's length.
   */
  method RunDecompression(env: DecompressEnv, outputPath: string)
    returns (sent: seq<CompressMessage>, output: Option<seq<byte>>)
    requires ChunksFit(env.source)
    ensures WellFormedStream(sent)
    ensures ProgressIncreasing(sent)
    ensures env.inputLength.Ok? ==> ProgressTotal(sent, env.inputLength.value)
    ensures DecompressReachesLoop(env) ==> IsProgressLog(env.source, env.writes, sent[..|sent| - 1], env.inputLength.value)
    ensures !DecompressReachesLoop(env) ==> |sent| == 1
    ensures output == (if DecompressReachesLoop(env) then Some(Yield(env.source, env.writes)) else None)
    ensures sent[|sent| - 1].Finished? <==> DecompressFailure(env).None?
    ensures sent[|sent| - 1].Finished? ==>
              output.Some? &&
              sent[|sent| - 1].originalSize == env.inputLength.value &&
              sent[|sent| - 1].compressedSize == |output.value| &&
              sent[|sent| - 1].outputPath == outputPath
    ensures sent[|sent| - 1].Error? ==> sent[|sent| - 1].message == DecompressFailure(env).value
  {
    var progress, result;
    progress, output, result := DecompressRun(env, outputPath);
    if DecompressReachesLoop(env) {
      ProgressLogShape(env.source, env.writes, progress, env.inputLength.value);
    }
    sent := progress + [Terminal(result)];
  }

  /**
   * Decompression reports progress in decompressed bytes against the compressed size,
   * so nothing bounds a count by its total: 5 decoded bytes from a 2-byte input.
   */
  method DecompressionProgressExceedsTotal() returns (sent: seq<CompressMessage>)
    ensures |sent| == 2 && sent[0] == Progress(5, 2) && sent[0].bytesProcessed > sent[0].totalBytes
  {
    var env := DecompressEnv(Pass, Ok(2), Pass, Pass, [Data([1, 2, 3, 4, 5])], []);
    assert Completes(env.source, env.writes, 0);
    StopAt(env.source, env.writes, 1);
    assert Fed(env.source, 1) == [1, 2, 3, 4, 5];
    var output;
    sent, output := RunDecompression(env, "out");
    assert sent[..|sent| - 1][0] == sent[0];
  }

  /**
   * The round trip of compression.rs's test (lines 112-167): compress a file, then
   * decompress the result. Assuming the codec's decoder inverts its encoder, and that
   * the decoder reads back the decoding of the compressed file, both jobs end in
   * `Finished` and the restored file holds exactly the bytes read from the original.
   */
  method CompressThenDecompress(
    cenv: CompressEnv, denv: DecompressEnv,
    encode: seq<byte> -> seq<byte>, decode: seq<byte> -> seq<byte>,
    compressedPath: string, restoredPath: string)
    returns (compressed: seq<CompressMessage>, decompressed: seq<CompressMessage>, restored: seq<byte>)
    requires ChunksFit(cenv.source) && ChunksFit(denv.source)
    requires forall x :: decode(encode(x)) == x
    requires CompressFailure(cenv).None? && DecompressFailure(denv).None?
    requires Yield(denv.source, denv.writes) == decode(encode(Yield(cenv.source, cenv.writes)))
    ensures WellFormedStream(compressed) && compressed[|compressed| - 1].Finished?
    ensures WellFormedStream(decompressed) && decompressed[|decompressed| - 1].Finished?
    ensures restored == Yield(cenv.source, cenv.writes)
  {
    var fed, output;
    compressed, fed := RunCompression(cenv, encode, compressedPath);
    decompressed, output := RunDecompression(denv, restoredPath);
    restored := output.value;
  }
}
