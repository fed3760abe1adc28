# Freya's compression controller and chunked copy jobs, in Dafny

Freya is a terminal application. The user opens a file, a background thread
compresses it with zstd in 64 KiB chunks, and the foreground loop shows the
progress it receives over a channel. Two pieces carry the logic, and this
project models and verifies both.

- **The jobs** (`src/compression.rs`, module `Engine` in `engine.dfy`). Each job reads its
  source in chunks of at most 64 KiB into a buffer, and a read of 0 bytes ends
  the stream. It writes each chunk on, adds the chunk's length to
  `bytes_processed`, and sends one `Progress` per chunk. After the loop it sends
  `Finished` on success or `Error` on the first failing step. The message type
  `CompressMessage` of `src/lib.rs` is module `Protocol` (`protocol.dfy`).
  That module also holds the shape every job's stream has: Progress messages,
  then exactly one terminal message.
- **The controller** (`App` in `src/app.rs`, module `Controller` in `controller.dfy`).
  The class `Controller.App` has the struct's fields. Its methods are proved to
  follow transition functions on the abstract value `AppState`. Those cover
  draining the receiver, key handling, the 2-second auto-exit and the main loop.
  The lemmas state what those transitions promise.
- **Output naming** (`paths.dfy`, module `Paths`). This models the part of Rust's
  `Path::extension` and `PathBuf::set_extension` that `handle_key_event` uses to
  name the `.zst` file.

How the environment is represented:

- The thread and the mpsc channel are abstracted. A job runs to its end and
  returns the messages it sent, in order.
- The controller holds the receiver as a queue that it consumes from the front.
- A producer's sends reach the controller as a `Delivery` on a numbered channel.
  When the controller no longer holds that channel, the sends are dropped.
- Every fallible file-system step is an input carrying its outcome.
- The reader is a script of chunks or failures, and the writer is a script of
  outcomes.
- The zstd encoder and decoder are function parameters.
- The file picker's answer is an `Option<string>`.
- Time is an integer number of milliseconds, and progress is a `real`.

Notes on the code as written:

- Decompression counts the decoder's output bytes against the compressed size.
  It does not count compressed bytes consumed.
- The encoder level is fixed at 3. There are no level keys, and the controller
  only ever starts compression jobs.
- The comment at `src/compression.rs:86-87` mentions an `is_decompressing` flag,
  but `app.rs` has no such flag. So a decompression `Finished` handled by the
  controller would be reported as a compression result, with its sizes swapped.
- After a finished job the application exits after 2 s. It does not return to an
  idle state.

## Model

| member | source | states |
|---|---|---|
| `Protocol.ExactlyOneTerminal` | src/compression.rs:39-50 | A job's stream (Progress messages, then one terminal) holds exactly one terminal message. Nothing follows it, so nothing follows an `Error`. It ends in `Finished` exactly when it holds no `Error`. |
| `Engine.StopFrom` | src/compression.rs:21-32 | The loop's iteration count from k: every iteration in between reads a non-empty chunk whose write succeeds, and the one it stops at does not. |
| `Engine.Stop` | src/compression.rs:21-32 | The same from the first read: the loop runs while reads are non-empty and writes succeed, and stops at the first 0-byte read, failed read or failed write. |
| `Engine.StopAt` | src/compression.rs:21-32 | The stopping iteration is unique: if every iteration before k completes and k does not, the loop stops at k. |
| `Engine.FedPrefix` | src/compression.rs:26-27 | The bytes handed on after i chunks are a prefix of those after j ≥ i chunks. With non-empty chunks they are strictly shorter when i < j. |
| `Engine.ProgressLogIncreasing` | src/compression.rs:21-31 | Successive Progress counts from the loop strictly increase. |
| `Engine.ProgressLogSteps` | src/compression.rs:21-31 | The first Progress count is positive and at most one 64 KiB chunk. Each later count exceeds the one before by at most one chunk. |
| `Engine.ProgressLogShape` | src/compression.rs:21-31 | The loop's Progress messages all carry the same total. Their counts strictly increase, the first is at most 64 KiB, and each step adds at most 64 KiB. The last count equals the number of bytes handed on. |
| `Engine.CopyChunks` | src/compression.rs:18-32 | The loop body reads into a 64 KiB array buffer. It sends one Progress per completed chunk, carrying the running byte count and the fixed total. The sink receives exactly the chunks read, in order. It ends with no error on a 0-byte read, and otherwise with the failing read's or write's error. |
| `Engine.CompressRun` | src/compression.rs:12-37 | The compression `run` closure. It fails with the first failing step's error (open, metadata, create, encoder, loop, finish, output metadata), and with no Progress if the failure comes before the loop. On success it returns `(metadata length, size of the encoded output, output path)`. |
| `Engine.Terminal` | src/compression.rs:39-50 | The closure's result becomes one terminal message: `Finished` exactly for `Ok`, `Error` for `Err`. |
| `Engine.RunCompression` | src/compression.rs:11-51 | The compression thread sends a well-formed stream with strictly increasing counts. Every Progress carries the input's metadata length. The last Progress reports every byte handed to the encoder. The stream ends in `Finished(metadata length, encoded size, path)` or in `Error` with the first failure's message. |
| `Engine.DecompressRun` | src/compression.rs:62-89 | The decompression `run` closure. The output file is created only after `Decoder::new` succeeded. A format error can also surface as the first read's failure. The file holds exactly the decoded chunks written (also when a later write fails). On success it returns `(compressed size, decompressed byte count, path)`. |
| `Engine.RunDecompression` | src/compression.rs:61-103 | The decompression thread sends a well-formed stream with strictly increasing counts against the compressed size. Its `Finished` puts the compressed size in `original_size` and the output's length in `compressed_size`. An `Error` carries the first failure's message. |
| `Engine.DecompressionProgressExceedsTotal` | src/compression.rs:79-83 | Nothing bounds a decompression count by its total: 5 decoded bytes from a 2-byte input give `Progress(5, 2)`. |
| `Engine.CompressThenDecompress` | src/compression.rs:113-171 | The round-trip test. Two assumptions: the decoder inverts the encoder, and the decompression job reads back the decoding of the compressed file. Under them, and if no step fails, both jobs end in `Finished`, and the restored file holds exactly the bytes read from the original. |
| `Paths.AsWrittenWithExtension` | src/app.rs:137-141 | For an input with an extension, the output path is the input with ".zst" appended ("document.pdf" gives "document.pdf.zst"). |
| `Paths.AsWrittenWithoutExtension` | src/app.rs:137-141 | For an input whose file name has no extension, the code as written appends "..zst". |
| `Paths.ReadmeGetsTwoDots` | src/app.rs:137-141 | As written, "README" is named "README..zst". |
| `Paths.CompressedPathAppends` | src/app.rs:136-141 | The corrected naming appends ".zst" to every path that has a file name. |
| `Paths.CompressedPathAgrees` | src/app.rs:137-141 | The corrected naming equals the written one whenever the input has an extension. |
| `Controller.Ratio` | src/app.rs:99-103 | The result ratio is never negative. It is 0 for an empty original, and otherwise ratio × original = compressed × 100, with no division by zero. |
| `Controller.Drained` | src/app.rs:77-123 | With no receiver, draining changes nothing. Afterwards the queue is empty or the receiver has been dropped. The channel held stays the same, `exit` is untouched, and the state invariant is kept. |
| `Controller.DrainProgressOnly` | src/app.rs:78-88 | Draining only Progress messages empties the queue and shows the fraction of the last message whose total is known. A message with total 0 changes nothing. |
| `Controller.DrainStopsAtTerminal` | src/app.rs:89-119 | Draining stops at the first terminal message and drops the rest of the queue with the receiver. After `Finished`: not compressing, progress 1, "Compression complete!", result recorded, finish time = now. After `Error`: not compressing, progress 0, " Error: " + message, result and finish time kept. |
| `Controller.DrainWholeStream` | src/app.rs:78-119 | Draining a job's whole well-formed stream drops the receiver and ends the job. Progress is 1 after `Finished` and 0 after `Error`. |
| `Controller.KeyResetsProgress` | src/app.rs:126-128 | After any key pressed while no job runs, progress is 0. |
| `Controller.KeyKeepsProgressDuringJob` | src/app.rs:126-128 | A key press while a job runs keeps its progress, unless it picks a new file to open. |
| `Controller.OpenStartsJob` | src/app.rs:132-160 | Opening a file starts a job writing to the input path + ".zst" (the corrected naming). That equals app.rs's naming whenever the file has an extension. It uses a channel never used before, which replaces any previous receiver. The job is marked running at progress 0, and the finish time is cleared. |
| `Controller.CancelOnlyChangesStatus` | src/app.rs:161-167 | A cancelled picker sets the status to "Not Compressing " and changes nothing else beyond the key-press progress reset. No receiver is created and `is_compressing` is untouched. |
| `Controller.OpenOrphansPreviousJob` | src/app.rs:144-145 | After a new open, whatever the previous job still sends is dropped. |
| `Controller.AfterDeliveries` | src/compression.rs:28-31 | A run of sends appends exactly the messages sent on the held channel to its queue, in delivery order. Sends on other channels are dropped, and without a receiver nothing changes. Nothing else in the state changes. |
| `Controller.TickProperties` | src/app.rs:53-75 | A tick of `handle_events` keeps the invariant, never clears `exit`, and sets `exit` once the finish time is at least 2 s old. It sets `exit` only for a 'q' press or such a finish time. A job it starts gets the next fresh channel. |
| `Controller.RunFrom` | src/app.rs:41-47 | The main loop takes no tick once `exit` is set. It stops only when `exit` is set, a tick fails, or the ticks run out, and it keeps the invariant. |
| `Controller.App.constructor` | src/app.rs:26-36 | The initial state: no exit, not compressing, progress 0, the start status, no receiver, no result, no finish time. It satisfies the invariant. |
| `Controller.App.Exit` | src/app.rs:173-175 | Sets `exit` and nothing else. |
| `Controller.App.Deliver` | src/compression.rs:28-31 | A send is appended to the queue if its channel is the one held, and dropped otherwise. |
| `Controller.App.DeliverAll` | src/compression.rs:28-31 | The sends that arrived, applied in order. |
| `Controller.App.CheckCompressionProgress` | src/app.rs:77-123 | The `while let` loop over `try_recv` with its early returns computes exactly `Drained`. |
| `Controller.App.StartJob` | src/app.rs:134-160 | The picked-file branch computes exactly `Opened`: a fresh receiver, running, progress 0, no finish time, status naming the file, and the job to start, whose output path is the corrected `Paths.CompressedPath`. |
| `Controller.App.HandleKeyEvent` | src/app.rs:125-171 | Computes exactly `AfterKey`: the progress reset, then quit, open (picked or cancelled), or nothing. |
| `Controller.App.HandleEvents` | src/app.rs:53-75 | Computes exactly `AfterEvents`. Only key presses are handled, a failing poll or read returns its error before draining, and the drain is followed by the auto-exit check. |
| `Controller.App.Run` | src/app.rs:41-47 | The `while !self.exit` loop computes exactly `RunFrom`. |

## Left out

Not modelled at all:

- The terminal rendering (`src/ui.rs` and the `Widget` impl at `src/app.rs:178-240`).
  It draws the state and never changes it. The compression-level selector it
  refers to is not defined in the code, so no level keys are modelled.
- Thread spawning and the mpsc channel as concurrency constructs. A job is a
  method that returns its messages, and sends reach the controller as deliveries
  between ticks.
- The zstd codec's internals, including that the decoder rejects input that is
  not zstd. Encoding is a function parameter. A rejected input is a failure of
  the decoder step or of the first read.
- The round trip rests on two assumptions, stated as preconditions. The decoder
  inverts the encoder. The decompression job's reads return the decoding of the
  compressed file the compression job wrote.
- The file system and the file dialog. Their answers are inputs.
- Floating-point rounding. Progress and the ratio are exact `real` values.
- The formatted result text. `Summary` keeps its four values, not the string.
- The `{:?}` escaping in the " Compressing" status. The model quotes the file
  name without escaping it.
- Wall-clock `Instant`s. Time is an integer millisecond input, and one `now`
  serves both the drain and the auto-exit check of a tick.
- The entry point `src/main.rs`, which only prints the last result.
- Rust path details beyond '/'-separated names. Trailing separators, the
  normalisation of "." components and lossy OS-string conversion are not
  modelled. A picked file's path has none of them.

Contracts stated weaker than the code:

- Engine.CopyChunks: counts bytes as an unbounded `nat`. The `u64` counter could
  only overflow after 2^64 bytes.
- Engine.DecompressRun: a `write_all` that fails part-way may leave part of that
  chunk on disk. The model's output holds only the completed chunks.
- Engine.CompressRun: the encoder's partial output after a failure is not
  modelled, only the bytes handed to it.
- Controller.App.Run: stops when the given ticks run out, whereas the real loop
  waits for events forever. Drawing and its possible failure are left out.
- Controller.App.HandleKeyEvent: uses the corrected output naming
  `Paths.CompressedPath`, not the one written in `app.rs` (see Findings).
- Controller.App.StartJob: the job's output path is the corrected
  `Paths.CompressedPath`. A picked "README" gives "README.zst", where `app.rs`
  writes "README..zst". The two agree whenever the file has an extension.
- Controller.OpenStartsJob: states the corrected output path, input + ".zst". For a
  file without an extension `app.rs` writes input + "..zst" instead
  (`Paths.AsWrittenWithoutExtension`).

## Findings

| source | as written | input that shows it | evidently intended | confidence | as-written member | corrected member |
|---|---|---|---|---|---|---|
| src/app.rs:137-141 | The output path is `set_extension(extension-or-"" + ".zst")`. `set_extension` adds its own "." before the text it is given. | A file named `README` (no extension) becomes `README..zst`. | `README.zst`, i.e. ".zst" appended to the path, as the comment's `document.pdf` → `document.pdf.zst` shows. | not executed; follows the documented behaviour of Rust's `Path::extension` and `PathBuf::set_extension` | `Paths.ReadmeGetsTwoDots` | `Paths.CompressedPathAppends` |
