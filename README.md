# Smart surveillance audio pipeline: a Dafny model

This project models the detection loop of `run.py`, the audio side of a Raspberry Pi
surveillance node. The node listens on a microphone. It waits for a loud chunk of
samples, records a fixed window after it, and turns the window into MFCC features of
shape `[1, 49, 10, 1]`. It then runs a TFLite classifier and publishes the top class
over MQTT to `/R0001/alerts`.

The model covers the integer and sequence logic of that loop:

- `Audio`: the trigger test `max(chunk) >= 500` on signed 16-bit samples, and the
  wait loop that discards chunks until the first one passes. Also `record_audio`:
  the chunk count `int((rate / chunk) * seconds)`, and the loop that appends that
  many fresh reads and joins them. The microphone stream is a sequence of chunks.
  A read consumes the next chunk.
- `Features`: the shapes of `get_mfccs`. This covers the frame count
  `(44100 - frame_length) // frame_step + 1`, the bin count `frame_length // 2 + 1`,
  truncation to 10 coefficients, and the reshape to `[1, T, 10, 1]`. The reshape
  fails unless the element counts agree, and that failure is modelled.
- `Inference`: `np.argmax` and `np.max` over the probability vector.
- `Alerts`: the three-field record of `publish_outcome`, the two-decimal rounding of
  its confidence, and the single publish to the fixed topic. The MQTT publisher is
  a class that logs every message it is handed.
- `Surveillance`: one cycle of the outer loop as a function (`Cycle`) and as a
  method (`RunCycle`). Also the outer loop itself (`Listen`), over a finite run of
  cycles.

What the code does, as modelled:

- The trigger uses the largest signed sample, not the largest magnitude. The
  threshold is the constant 500.
- The chunk count truncates toward zero. It does not round up.
- No confidence threshold is applied: every completed cycle publishes, even an
  exact tie at 0.5 (`TieIsPublished`).
- The record carries the class index, not a label.
- The code has no device, configuration or model-load error handling. A failing
  reshape or an empty prediction vector raises and ends the process (`Crashed`,
  `CyclePublishesIff`).
- The reshape target is sized from the hard-coded length 44100, not from the
  recording. So it succeeds exactly for recordings of 44100 to 44981 samples, a
  range rather than the single length 44100 (`RunReshapeSucceedsIff`). With
  `--seconds 2` the recording is 88200 samples and the reshape fails
  (`TwoSecondsNeverPublishes`).

A finite input stands in for a device that never stops delivering. When the
modelled stream runs out, the source would block on its read forever, and the model
reports `Blocked` or `None`.

## Model

| member | source | states |
|---|---|---|
| `Audio.Triggers` | run.py:43-45 | `max(chunk) >= 500` holds exactly when some signed sample of the chunk is at least 500 |
| `Audio.MaxSample` | run.py:42-43 | `max` of a non-empty chunk is one of its samples and no sample exceeds it |
| `Audio.TriggersIffSomeSampleReaches` | run.py:43-46 | a chunk triggers if and only if some signed sample is at least 500 |
| `Audio.TriggerBoundaryIsInclusive` | run.py:45 | the comparison is inclusive: `[500]` triggers, `[499]` does not |
| `Audio.NonPositiveChunkNeverTriggers` | run.py:42-45 | a chunk with no positive sample (all zero, or all negative) never triggers |
| `Audio.NegativePeakDoesNotTrigger` | run.py:42-45 | full-scale negative samples (-32768) do not trigger, because the test is on the signed maximum |
| `Audio.FirstTriggerFrom` | run.py:40-46 | the result is the first triggering chunk at or after the start index, every chunk before it is quiet, and `None` means no chunk triggers |
| `Audio.FirstTriggerIsUnique` | run.py:40-46 | a triggering chunk preceded only by quiet chunks is the one the wait stops at |
| `Audio.WaitForTrigger` | run.py:40-46 | the read-and-break loop stops at exactly the first chunk that triggers, and every earlier chunk is discarded |
| `Audio.ChunkCount` | run.py:66 | `int((rate / chunk) * seconds)` is the quotient truncated toward zero: `n * chunk <= rate * seconds < (n + 1) * chunk` for non-negative seconds, and the mirror bound for negative seconds |
| `Audio.Reads` | run.py:66-71 | the number of reads `range(chunks)` performs: none for a non-positive count, otherwise the truncated quotient, `n * chunk <= rate * seconds < (n + 1) * chunk` |
| `Audio.DefaultReads` | run.py:164-166 | with the defaults 4410, 1 and 44100 the window is 10 chunks, 44100 samples |
| `Audio.Join` | run.py:83 | `b''.join(frames)`: no samples for no reads, and at least the last read's samples otherwise; its layout is given by `JoinAppend`, `JoinLength` and `JoinAt` |
| `Audio.JoinAppend` | run.py:71-73 | appending a read to `frames` extends the joined buffer by exactly that chunk |
| `Audio.JoinLength` | run.py:83 | joining `n` full chunks gives `n * chunk` samples |
| `Audio.JoinAt` | run.py:83 | sample `j` of read `i` is at offset `i * chunk + j` of the joined buffer (in-order concatenation) |
| `Audio.RecordAudio` | run.py:66-73 | the capture completes if and only if the stream holds `chunks` more reads, and it then returns the join of exactly those reads in arrival order |
| `Audio.RecordingLength` | run.py:66-83 | a completed recording holds `chunks * chunk` samples, 44100 with the defaults |
| `Features.FrameCount` | run.py:105 | `(length - frame_length) // frame_step + 1` is the floor quotient plus one: `(t - 1) * step <= length - frame_length < t * step` |
| `Features.SpectrogramBins` | run.py:106 | `frame_length // 2 + 1`: `2 * (bins - 1) <= frame_length < 2 * bins` |
| `Features.StftFrames` | run.py:111 | the STFT yields no frame for a signal shorter than one frame; otherwise its last frame fits in the signal and one more would not |
| `Features.RetainedCoefficients` | run.py:118 | `[..., :num_coefficients]` keeps the smaller of the coefficient count and the available mel coefficients |
| `Features.TargetShape` | run.py:119 | the target is `[1, spectrogram_width, num_coefficients, 1]`, its width the frame count of the length 44100, and it has `spectrogram_width * num_coefficients` elements |
| `Features.FrameFits` | run.py:105 | frame `k` fits in the signal if and only if `k` is below the frame count |
| `Features.FrameCountPositiveIff` | run.py:105 | the frame count is positive if and only if the signal is at least one frame long |
| `Features.GetMfccs` | run.py:111-119 | the reshape succeeds if and only if the truncated coefficient matrix has as many elements as the target, and then gives the target shape `[1, T, C, 1]`, with that element count |
| `Features.RunShapeConstants` | run.py:98-106 | 49 frames, 883 spectrogram bins, 10 coefficients kept, target `[1, 49, 10, 1]` of 490 elements |
| `Features.RunReshapeSucceedsIff` | run.py:105-119 | with the run options the reshape succeeds if and only if the signal has 44100 to 44981 samples |
| `Features.ReshapeSucceedsAtAssumedLength` | run.py:105-119 | for any valid options that keep at most `num_mel_bins` coefficients, a signal of the hard-coded length 44100 passes the reshape |
| `Features.TrainingWindowFrames` | src/audio/train.py:27-30 | the training options (3528, 1764) on 88200-sample signals also give 49 frames, with 1765 spectrogram bins |
| `Inference.ArgMax` | run.py:140 | the index returned holds the maximum and every lower index holds a strictly smaller value |
| `Inference.MaxValue` | run.py:142 | `np.max` is one of the probabilities and no probability exceeds it |
| `Inference.MaxIsValueAtArgMax` | run.py:140-142 | `np.max` equals the value at `np.argmax` |
| `Inference.MakeInference` | run.py:140-142 | no selection for an empty vector; otherwise the lowest index of a maximal value, together with that value |
| `Inference.TopIsUnique` | run.py:140 | any index that is maximal and preceded only by smaller values is the one selected |
| `Inference.SelectionExamples` | run.py:140-142 | `[0.1, 0.85, 0.05]` selects class 1 at 0.85, and the tie `[0.5, 0.5]` selects class 0 |
| `Alerts.RoundHalfEven` | run.py:152 | the result is an integer within 1/2 of the input, and even on a tie |
| `Alerts.RoundHalfEvenIsUnique` | run.py:152 | the nearest-integer and ties-to-even conditions determine the result |
| `Alerts.Round2` | run.py:152 | `round(x, 2)` is a multiple of 0.01 within 0.005 of `x`, and on a tie exactly halfway it is the even multiple |
| `Alerts.Round2Idempotent` | run.py:152 | rounding a rounded confidence changes nothing |
| `Alerts.Round2Examples` | run.py:152 | 0.8234 rounds to 0.82, 0.85 to 0.85, and the tie 0.125 to 0.12 |
| `Alerts.OutcomeBody` | run.py:149-153 | the record has exactly the keys `timestamp`, `class` and `confidence`; `class` is the prediction index and `confidence` the rounded probability |
| `Alerts.Publisher.constructor` | run.py:28-29 | a new publisher has sent nothing |
| `Alerts.Publisher.MyPublish` | run.py:155 | publishing appends exactly one message on the given topic |
| `Alerts.PublishOutcome` | run.py:145-155 | exactly one message, the outcome record, is published to `/R0001/alerts`, whatever the confidence |
| `Surveillance.Cycle` | run.py:37-58 | a cycle blocks exactly when the stream holds no trigger or too few chunks after it; a published cycle consumed the trigger chunk and the reads after it, and its message goes to `/R0001/alerts` with the arg-max class and the rounded maximum probability (`CyclePublishesIff` says when it publishes rather than raises; the recording is tied down by `RecordingIsWindow` and `TriggerChunkNotRecorded`) |
| `Surveillance.CyclePublishesIff` | run.py:49-58 | a cycle that is not blocked publishes if and only if the reshape accepts its `chunks * chunk` samples and the prediction vector is non-empty; otherwise it raises (`Crashed`) |
| `Surveillance.TwoSecondsNeverPublishes` | run.py:66-119 | with `--seconds 2` and the other defaults the recording is 88200 samples and no cycle publishes: the reshape fails |
| `Surveillance.RecordingIsWindow` | run.py:40-49 | a completed cycle's recording is the join of the reads that follow the first trigger chunk |
| `Surveillance.TriggerChunkNotRecorded` | run.py:40-49 | in a completed cycle the recording is the reads after the first trigger chunk: the trigger chunk and all earlier ones are left out, the recording holds `chunks * chunk` samples, and recorded sample `i * chunk + j` is sample `j` of chunk `k + 1 + i` |
| `Surveillance.NoConfidenceGate` | run.py:49-58 | with the defaults, a triggering stream with a full window and any non-empty probability vector always publishes the arg-max class and its probability |
| `Surveillance.TieIsPublished` | run.py:140-155 | the tie `[0.5, 0.5]` is published as class 0 with confidence 0.5 |
| `Surveillance.RunCycle` | run.py:37-58 | one pass computes what `Cycle` describes, and it publishes one message if the cycle completes and none otherwise |
| `Surveillance.OneMessagePerCycle` | run.py:58 | a run of completed cycles published exactly one message per cycle, in order |
| `Surveillance.SilentCycleAddsNothing` | run.py:35-58 | a cycle that blocks or raises publishes nothing |
| `Surveillance.MessagesUseAlertsTopic` | run.py:155 | every message a run publishes goes to `/R0001/alerts` |
| `Surveillance.Listen` | run.py:35-58 | the outer loop runs the cycles in order and stops after the first one that does not publish; the publisher then holds the messages of the completed cycles, in order |

Some members are proof helpers and have no row. `Messages` is the publisher log of a run,
and `Outcomes` lists what each cycle came to. `RunNextCycle` is the body of `Listen`'s
loop, and `MessagesAppend`, `OutcomesAt` and `OutcomesOfPrefix` serve the proof of
`Listen`. `WindowLayout` serves the proof of `TriggerChunkNotRecorded`.

## Left out

- Audio device I/O (pyaudio open, read, start, stop). The stream is a sequence of chunks, and each read takes the next one.
- The WAV encoding into a `BytesIO`, and the `tf.audio.decode_wav` and `squeeze` that follow. Samples stay 16-bit integers; the byte layout and the conversion to float32 are not modelled.
- The numeric content of the features: STFT, magnitude, mel weight matrix, `tensordot`, `log(x + 1e-6)` and the DCT. These are floating point inside TensorFlow. Only their shapes are modelled.
- The TFLite interpreter (load, allocate, set tensor, invoke) and `tf.nn.softmax`. Because these are foreign calls, each cycle takes the probability vector as an input.
- The timestamp `strftime`, because it reads the clock: each cycle takes the timestamp as an input string.
- The JSON text that `json.dumps` makes of the record. The published message carries the record as a map.
- The MQTT transport behind `DoSomething`. Its source is not part of this model; the publisher only logs what it is handed.
- Argument parsing and logging setup.
- `src/audio/train.py`: model training, pruning, TFLite export and plotting. Only its option constants are used, in `Features.TrainingWindowFrames`.
- `Audio.ChunkCount`: uses exact rational division. It does not model the float rounding of `rate / chunk`, which could make `int()` one lower for some argument values.
- `Audio.ValidArgs`: excludes `chunk <= 0` and `rate <= 0`. The source raises or fails to open the stream for these values.
- `Audio.WaitForTrigger`: on a finite input with no triggering chunk it returns `None`, where the source keeps waiting forever.
- `Alerts.Round2`: rounds the exact real value half to even. Python rounds the binary float, so a decimal tie such as 0.835, stored slightly below itself, can round down in the source.
- `Inference.MakeInference`: models the probabilities as reals, so NaN and float ties are not modelled.
- `Surveillance.Listen`: runs over a finite list of cycles instead of `while True`.
