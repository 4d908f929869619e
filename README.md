# Jarvis streaming ASR client: request generator and response renderer

This project models the sequential logic of the Jarvis streaming speech-recognition client
`jarvis_streaming_asr_client.py` and proves properties of it in Dafny. The client has two pieces of logic.

- **The request generator** (`RequestGenerator.Generate`, one pass in `RequestGenerator.Pass`). It turns a WAV file into
  the outbound request stream. For each of `num_iterations` iterations it reopens the file, notes a start time and emits
  one configuration request. It then reads `CHUNK = 1600` frames at a time and emits one audio request per non-empty read,
  stopping at the first empty read. With real-time simulation on, it sleeps `max(0, CHUNK / rate * k - elapsed)` before
  the k-th chunk of an iteration. An exception from an open or a read ends the stream.
- **The response renderer** (`ResponseRenderer.PrintToFile`). It walks the inbound responses and skips those without
  results. For each other response it writes the lines of its first result:
  - a final result writes one transcript line per alternative and, with word time offsets, two table headers and one row
    per word of alternative 0;
  - an interim result writes one line holding alternative 0's transcript.
- **The output file names** (`OutputFiles.OutputFilenames`): `output_<i>.txt` for each client i.

Files:

- `wave_reader.dfy` (module `WaveReading`): the part of an open WAV file the generator uses. The file is a frame sequence
  plus a read cursor.
- `request_generator.dfy` (module `RequestGenerator`): the reference functions and the lemmas about them.
  - `Chunks`: the reads of one pass.
  - `Iteration`: the requests of one pass.
  - `Requests`: the whole stream when nothing fails.
  - `Truncated`: the stream when I/O operation number b raises.
  - `Timed` / `PassTimed`: the clock reading at each yield.
  - The `Pass` and `Generate` methods, proved against these functions.
- `response_renderer.dfy` (module `ResponseRenderer`):
  - output lines as records;
  - `RenderResponse` (one response) and `RenderAll` (a stream);
  - the `OutputFile` class whose `Write` appends a line;
  - the writer methods, proved against the functions.
- `output_files.dfy` (module `OutputFiles`): `%d` as `DecimalString`, the round trip through `DecimalValue`, and the
  name-list loop.

Abstractions:

- **Frames.** A frame is an opaque integer. The source's `len(d) <= 0` on the returned bytes means "no frame was
  returned". This assumes a well-formed data chunk whose size is a multiple of the frame size; a malformed chunk, where
  `readframes` can return a trailing partial frame, is outside the frame abstraction.
- **The clock.**
  - The clock starts at `t0`.
  - After request j is yielded, the consumer, the network and the reads let `delay(j) >= 0` seconds pass.
  - A sleep advances the clock by exactly its argument.
  - Times are exact reals and `CHUNK / rate` is real division, as in Python 3.
- **Faults.** `faultAt` numbers the generator's I/O operations from 0: each `wave.open` and each `readframes`. It names
  the one that raises, if any.
- **Renderer inputs.**
  - The reading `time.time() - start_time` taken just before line n of the output file is written is `elapsed(n)`.
  - `streamFailed` says whether the response iterator raises after the given responses.

Edge cases of the code, all modelled:

- **Skipping.** The code skips a response with no *results* (lines 46-47). A result with no alternatives is not
  skipped.
- **A final result with no alternatives and word time offsets on** writes its two header lines (`Timestamps:` and the
  column header). It then raises `IndexError` at `alternatives[0]` (line 58).
- **An interim result with no alternatives** raises `IndexError` before writing (line 62).
- **A final result with no alternatives and offsets off** writes nothing.

An exception inside `print_to_file` ends the loop. The lines already written stay in the file.

## Model

| member | source | states |
|---|---|---|
| WaveReading.WaveReader.Open | jarvis_quickstart_v1.0.0-b.2/examples/jarvis_streaming_asr_client.py:102 | opening the file yields a reader over all its frames with the cursor at the first frame |
| WaveReading.WaveReader.ReadFrames | jarvis_quickstart_v1.0.0-b.2/examples/jarvis_streaming_asr_client.py:107 | `readframes(n)` returns the next min(n, remaining) frames and advances the cursor past them; the result is empty exactly at the end of the file (or for n = 0) |
| RequestGenerator.Chunks | jarvis_quickstart_v1.0.0-b.2/examples/jarvis_streaming_asr_client.py:106-109 | every chunk a pass reads holds between 1 and CHUNK frames; a file of at most CHUNK frames is read in at most one chunk |
| RequestGenerator.ChunksConcatenate | jarvis_quickstart_v1.0.0-b.2/examples/jarvis_streaming_asr_client.py:106-114 | the chunks of a pass, concatenated in order, are exactly the file's frames |
| RequestGenerator.ChunksCount | jarvis_quickstart_v1.0.0-b.2/examples/jarvis_streaming_asr_client.py:77-109 | a pass reads ceil(frames / 1600) chunks |
| RequestGenerator.ChunksFull | jarvis_quickstart_v1.0.0-b.2/examples/jarvis_streaming_asr_client.py:107 | every chunk except the last holds exactly CHUNK frames |
| RequestGenerator.Iteration | jarvis_quickstart_v1.0.0-b.2/examples/jarvis_streaming_asr_client.py:102-114 | the requests of one pass over a freshly opened file: the configuration, then one audio request per chunk of `Chunks`, in read order |
| RequestGenerator.IterationShape | jarvis_quickstart_v1.0.0-b.2/examples/jarvis_streaming_asr_client.py:102-114 | an iteration is one configuration request followed only by audio requests. Audio request i carries chunk i - 1, of 1 to CHUNK frames. It holds exactly one configuration, and its audio is exactly the file |
| RequestGenerator.IterationPrefixConfigs | jarvis_quickstart_v1.0.0-b.2/examples/jarvis_streaming_asr_client.py:104-114 | any non-empty part of an iteration that was emitted before a failure holds exactly one configuration |
| RequestGenerator.Requests | jarvis_quickstart_v1.0.0-b.2/examples/jarvis_streaming_asr_client.py:101-114 | the stream when nothing raises: `Iteration` repeated once per `range(num_iterations)` step, none for a non-positive count |
| RequestGenerator.Truncated | jarvis_quickstart_v1.0.0-b.2/examples/jarvis_streaming_asr_client.py:100-117 | the stream when I/O operation b raises. An iteration performs the open, one read per chunk and the final empty read; whole iterations are emitted while b lies past them. In the iteration where b falls at position r (the open is position 0), the first r requests are emitted: none when the open raises, otherwise the configuration and r - 1 chunks. Nothing follows |
| RequestGenerator.RequestsLayout | jarvis_quickstart_v1.0.0-b.2/examples/jarvis_streaming_asr_client.py:101-114 | the stream is num_iterations identical iterations, because the file and counters are reset each time. Request j is the request at its offset in an iteration. It is a configuration exactly when it starts an iteration |
| RequestGenerator.RequestsConfigCount | jarvis_quickstart_v1.0.0-b.2/examples/jarvis_streaming_asr_client.py:101-104 | the stream holds exactly max(num_iterations, 0) configuration requests |
| RequestGenerator.RequestsPayload | jarvis_quickstart_v1.0.0-b.2/examples/jarvis_streaming_asr_client.py:101-114 | the audio of the whole stream is the file's frames once per iteration |
| RequestGenerator.ReadStep | jarvis_quickstart_v1.0.0-b.2/examples/jarvis_streaming_asr_client.py:106-114 | a read at the end of the file comes after the last chunk. Every other read returns the next chunk, and yielding it extends the iteration's prefix by that chunk |
| RequestGenerator.PaceStep | jarvis_quickstart_v1.0.0-b.2/examples/jarvis_streaming_asr_client.py:110-114 | the computed sleep is never negative, the chunk's yield time extends the pass's timing, and with simulation the sleep joins the pass's sleeps, the chunk leaving exactly that long after the generator resumed |
| RequestGenerator.TimedAt | jarvis_quickstart_v1.0.0-b.2/examples/jarvis_streaming_asr_client.py:103-113 | the clock reading at yield j: a configuration leaves at once after the previous delay; an audio request leaves at max(resume time, start + CHUNK / rate * k) with simulation and at resume time without |
| RequestGenerator.Timed | jarvis_quickstart_v1.0.0-b.2/examples/jarvis_streaming_asr_client.py:100-117 | every yield of the stream so far took place at the reading `TimedAt` gives |
| RequestGenerator.SleepsOf | jarvis_quickstart_v1.0.0-b.2/examples/jarvis_streaming_asr_client.py:110-112 | the sleeps a stream implies: in order, for each audio request, the time between resuming after the previous yield and this yield |
| RequestGenerator.SleepsAppendPass | jarvis_quickstart_v1.0.0-b.2/examples/jarvis_streaming_asr_client.py:101-113 | the sleeps of one more pass, appended after complete iterations, are the sleeps `SleepsOf` reads off the longer stream |
| RequestGenerator.TimedPacing | jarvis_quickstart_v1.0.0-b.2/examples/jarvis_streaming_asr_client.py:110-113 | yield times never decrease. With real-time simulation, the k-th chunk of an iteration is yielded at least k * CHUNK / rate seconds after the iteration's start time |
| RequestGenerator.TruncatedIsPrefix | jarvis_quickstart_v1.0.0-b.2/examples/jarvis_streaming_asr_client.py:100-117 | what is emitted before an exception is a prefix of the stream emitted without one |
| RequestGenerator.TruncatedComplete | jarvis_quickstart_v1.0.0-b.2/examples/jarvis_streaming_asr_client.py:100-117 | a failure numbered past the stream's last I/O operation changes nothing |
| RequestGenerator.TruncatedAt | jarvis_quickstart_v1.0.0-b.2/examples/jarvis_streaming_asr_client.py:100-117 | if operation r of iteration i raises, the emitted stream is the first i iterations and then the first r requests of iteration i |
| RequestGenerator.TotalOpsBelow | jarvis_quickstart_v1.0.0-b.2/examples/jarvis_streaming_asr_client.py:101-109 | operation r of iteration i (r at most the iteration's requests) is one the stream performs |
| RequestGenerator.TotalOpsValue | jarvis_quickstart_v1.0.0-b.2/examples/jarvis_streaming_asr_client.py:101-109 | the stream performs one open plus (chunks + 1) reads per iteration |
| RequestGenerator.Pass | jarvis_quickstart_v1.0.0-b.2/examples/jarvis_streaming_asr_client.py:102-115 | one iteration emits a prefix of `Iteration`, and all of it unless an open or read raises. A raise happens exactly at the faulty operation. Yields are timed as `PassTimed` says. Sleeps are non-negative, one per chunk, and none without simulation; with it, chunk m + 1 is yielded exactly sleep m after the generator resumed from yield m |
| RequestGenerator.Generate | jarvis_quickstart_v1.0.0-b.2/examples/jarvis_streaming_asr_client.py:99-117 | the generator emits `Requests` when nothing fails and `Truncated` when operation faultAt raises. It raised exactly when that operation is one it performs. Yield times follow `Timed`, never decrease, and respect the pacing bound. Sleeps are non-negative, one per audio request, and none without simulation; with it they are exactly the `SleepsOf` the yield times imply |
| ResponseRenderer.RenderResponse | jarvis_quickstart_v1.0.0-b.2/examples/jarvis_streaming_asr_client.py:46-62 | a response without results writes nothing and does not raise; any response writes `LineCount` lines, counted from its first result alone |
| ResponseRenderer.LineCount | jarvis_quickstart_v1.0.0-b.2/examples/jarvis_streaming_asr_client.py:46-62 | the number of lines one response writes: 0 without results; for a final result, its alternatives plus, with offsets, 2 + the words of alternative 0 (2 when there is no alternative); for an interim result, 1 (0 when there is no alternative) |
| ResponseRenderer.RenderFinal | jarvis_quickstart_v1.0.0-b.2/examples/jarvis_streaming_asr_client.py:49-59 | a final result writes transcript line i for alternative i, in order, each stamped with the clock of its own write. With offsets it then writes the two headers and one row per word of alternative 0, in order. It raises exactly when offsets are on and there is no alternative |
| ResponseRenderer.RenderInterim | jarvis_quickstart_v1.0.0-b.2/examples/jarvis_streaming_asr_client.py:61-62 | an interim result writes exactly one line with alternative 0's transcript, or raises with nothing written when there is no alternative |
| ResponseRenderer.ResponseTimes | jarvis_quickstart_v1.0.0-b.2/examples/jarvis_streaming_asr_client.py:49-62 | within one response, every transcript line carries the clock reading taken just before it was written |
| ResponseRenderer.RenderAll | jarvis_quickstart_v1.0.0-b.2/examples/jarvis_streaming_asr_client.py:43-62 | the file after the whole response loop: each response's lines in order, each response starting where the previous one ended, and nothing after the first response that raises |
| ResponseRenderer.RenderAllPrefix | jarvis_quickstart_v1.0.0-b.2/examples/jarvis_streaming_asr_client.py:45-62 | the file for any prefix of the response stream is a prefix of the whole file, and after a response raises nothing more is written |
| ResponseRenderer.RenderAllLength | jarvis_quickstart_v1.0.0-b.2/examples/jarvis_streaming_asr_client.py:45-62 | a stream that renders without raising writes exactly `TotalLines` lines: per final result, alternatives + (2 + words of alternative 0 with offsets); per interim result, 1 |
| ResponseRenderer.RenderAllSkipsEmpty | jarvis_quickstart_v1.0.0-b.2/examples/jarvis_streaming_asr_client.py:46-47 | dropping the responses without results leaves the file and the outcome unchanged |
| ResponseRenderer.RenderAllTimes | jarvis_quickstart_v1.0.0-b.2/examples/jarvis_streaming_asr_client.py:43-62 | line n of the file, if it is a transcript line, carries the clock reading taken just before line n was written |
| ResponseRenderer.OutputFile.Create | jarvis_quickstart_v1.0.0-b.2/examples/jarvis_streaming_asr_client.py:44 | opening the output file for writing starts it empty |
| ResponseRenderer.OutputFile.Write | jarvis_quickstart_v1.0.0-b.2/examples/jarvis_streaming_asr_client.py:51-59 | a write appends exactly one line |
| ResponseRenderer.WriteTranscripts | jarvis_quickstart_v1.0.0-b.2/examples/jarvis_streaming_asr_client.py:50-53 | the loop over a final result's alternatives appends exactly `FinalLines` |
| ResponseRenderer.WriteWordRows | jarvis_quickstart_v1.0.0-b.2/examples/jarvis_streaming_asr_client.py:58-59 | the loop over alternative 0's words appends exactly `WordRows` |
| ResponseRenderer.WriteResponse | jarvis_quickstart_v1.0.0-b.2/examples/jarvis_streaming_asr_client.py:46-62 | the loop body for one response appends exactly that response's lines, and raises exactly when `RenderResponse` raises |
| ResponseRenderer.PrintToFile | jarvis_quickstart_v1.0.0-b.2/examples/jarvis_streaming_asr_client.py:42-62 | the file is `RenderAll` of the response stream. The call ends with an IndexError when a response raised, otherwise with a transport error when the stream failed, otherwise normally. `max_alternatives` has no effect |
| OutputFiles.DecimalString | jarvis_quickstart_v1.0.0-b.2/examples/jarvis_streaming_asr_client.py:134 | `%d` of a number is a non-empty string of decimal digits with no leading zero |
| OutputFiles.DecimalRoundTrip | jarvis_quickstart_v1.0.0-b.2/examples/jarvis_streaming_asr_client.py:134 | reading back the digits of `%d` gives the number |
| OutputFiles.DecimalInjective | jarvis_quickstart_v1.0.0-b.2/examples/jarvis_streaming_asr_client.py:134 | distinct numbers have distinct `%d` forms |
| OutputFiles.OutputName | jarvis_quickstart_v1.0.0-b.2/examples/jarvis_streaming_asr_client.py:134 | the name of client i's file: `output_`, then i in decimal, then `.txt` |
| OutputFiles.OutputNameInjective | jarvis_quickstart_v1.0.0-b.2/examples/jarvis_streaming_asr_client.py:133-134 | distinct clients get distinct `output_%d.txt` names |
| OutputFiles.OutputFilenames | jarvis_quickstart_v1.0.0-b.2/examples/jarvis_streaming_asr_client.py:132-134 | the list holds one name per client (none for a non-positive count), and name i is `output_<i>.txt`. The names are pairwise distinct |

## Left out

- The gRPC channel, the stub and `StreamingRecognize` (lines 78, 87, 119) are a foreign network call. The response
  stream is an input of `PrintToFile`, and its failure is the `streamFailed` flag.
- Threads, `start`/`join` and the per-client fan-out (lines 123, 135-153) are left out. They share no state, so only the
  file names are modelled.
- `wave` container parsing, `getnframes`, `getframerate` and the handle opened at line 79 are left out. A file is a frame
  sequence and a rate.
- `w.close()` (line 115) is not modelled. Closing a reader has no effect on the stream, and a failure of the close is not
  among the modelled faults.
- `time.time()` and `time.sleep()` are not real clocks here (see the clock model above). Floating-point rounding of
  `CHUNK / rate * num_requests` is not modelled.
- String formatting (`%.2f`, `%-40s`, `%-16.0f`) is not modelled. Lines are records.
- `print(e)` at line 117 is console output and is left out. The exception's effect, ending the stream, is modelled.
- `argparse` (lines 12-39), the console prints (lines 84-85, 127-129, 155) and the duration computation (line 83) are
  left out. Line 83 divides by the frame rate before the generator exists, so `Generate` requires `rate > 0`.
- The `RecognitionConfig` construction (lines 88-97) is library plumbing. `StreamingConfig` is an opaque record carried
  unchanged by every configuration request.
- Opening the output file (line 44) and writing to it (lines 51-62) can fail with an `OSError`. That is a fourth way
  for `print_to_file` to end, and it is not modelled: `PrintToFile` and `Outcome` cover only normal completion, an
  `IndexError` and a failure of the response stream.
- `RequestGenerator.Generate` only considers faults in `wave.open` and `readframes`. An exception raised by the consumer
  or by `time.sleep` is not modelled.
