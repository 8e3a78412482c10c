/** The audio side of run.py: the trigger wait in `main` and the capture in `record_audio`.

    The microphone stream is modelled as the sequence of chunks it will deliver. A read
    consumes the next chunk; once the sequence is used up the real stream would block
    forever, and the model reports that as `None`. */
module Audio {
  import opened Wrappers

  /** A signed 16-bit PCM sample, as `array('h', ...)` decodes it. */
  newtype Sample = x: int | -32768 <= x < 32768

  /** One read of `chunk` samples from the stream. */
  type Chunk = seq<Sample>

  /** `volume >= 500` in the trigger wait. */
  const TRIGGER_THRESHOLD: Sample := 500

  /** The command-line arguments that shape the capture (`--chunk`, `--seconds`, `--rate`). */
  datatype Args = Args(chunk: int, seconds: int, rate: int)

  /** The argparse defaults. */
  const DEFAULT_ARGS := Args(4410, 1, 44100)

  /** Arguments the source can run with at all: a zero chunk makes `max` of an empty
      chunk and `rate / chunk` raise, and the stream is opened at a positive rate. */
  predicate ValidArgs(args: Args) {
    args.chunk > 0 && args.rate > 0
  }

  /** Every chunk the stream delivers holds exactly `chunk` samples. */
  predicate Delivers(device: seq<Chunk>, chunk: int) {
    forall j :: 0 <= j < |device| ==> |device[j]| == chunk
  }

  /** No chunk is empty, so `max` is defined on each of them. */
  predicate Readable(device: seq<Chunk>) {
    forall j :: 0 <= j < |device| ==> |device[j]| > 0
  }

  // ---------------------------------------------------------------------------
  // Trigger test

  /** Python's `max` over the signed samples of a chunk. */
  function MaxSample(c: Chunk): (m: Sample)
    requires |c| > 0
    ensures m in c
    ensures forall i :: 0 <= i < |c| ==> c[i] <= m
  {
    if |c| == 1 then c[0]
    else
      var rest := MaxSample(c[1..]);
      if c[0] >= rest then c[0] else rest
  }

  /** The trigger test: the largest signed sample reaches the threshold. */
  predicate Triggers(c: Chunk)
    requires |c| > 0
    ensures Triggers(c) ==> exists i :: 0 <= i < |c| && c[i] >= TRIGGER_THRESHOLD
    ensures (exists i :: 0 <= i < |c| && c[i] >= TRIGGER_THRESHOLD) ==> Triggers(c)
  {
    MaxSample(c) >= TRIGGER_THRESHOLD
  }

  /** A chunk triggers exactly when one of its samples is at least 500: the two
      ensures of `Triggers`, restated as one equivalence for readers. */
  lemma TriggersIffSomeSampleReaches(c: Chunk)
    requires |c| > 0
    ensures Triggers(c) <==> exists i :: 0 <= i < |c| && c[i] >= TRIGGER_THRESHOLD
  {
    if Triggers(c) {
      var i :| 0 <= i < |c| && c[i] == MaxSample(c);
    }
  }

  /** The comparison is inclusive: 500 triggers, 499 does not. */
  lemma TriggerBoundaryIsInclusive()
    ensures Triggers([500])
    ensures !Triggers([499])
  {
  }

  /** A chunk with no positive sample (silence, or a purely negative swing) never triggers. */
  lemma NonPositiveChunkNeverTriggers(c: Chunk)
    requires |c| > 0
    requires forall i :: 0 <= i < |c| ==> c[i] <= 0
    ensures !Triggers(c)
  {
    TriggersIffSomeSampleReaches(c);
  }

  /** The test is on the signed maximum, not the magnitude: a chunk holding a
      full-scale negative sample but nothing at or above +500 does not trigger. */
  lemma NegativePeakDoesNotTrigger()
    ensures !Triggers([-32768, 0, 499])
    ensures !Triggers([-32768, -32768, -32768])
  {
    assert MaxSample([0, 499]) == 499;
    assert MaxSample([-32768, -32768]) == -32768;
  }

  // ---------------------------------------------------------------------------
  // Trigger wait

  /** The index of the first chunk at or after `i` that triggers, if any. */
  function FirstTriggerFrom(device: seq<Chunk>, i: nat): (r: Option<nat>)
    requires Readable(device)
    requires i <= |device|
    ensures r.Some? ==> i <= r.value < |device| && Triggers(device[r.value])
    ensures r.Some? ==> forall j :: i <= j < r.value ==> !Triggers(device[j])
    ensures r.None? ==> forall j :: i <= j < |device| ==> !Triggers(device[j])
    decreases |device| - i
  {
    if i == |device| then None
    else if Triggers(device[i]) then Some(i)
    else FirstTriggerFrom(device, i + 1)
  }

  /** The index of the first chunk of the stream that triggers. */
  function FirstTrigger(device: seq<Chunk>): Option<nat>
    requires Readable(device)
  {
    FirstTriggerFrom(device, 0)
  }

  /** The first triggering chunk is unique: any chunk that triggers after a run of
      quiet chunks is the one `FirstTrigger` finds, and a stream with a triggering
      chunk is never reported as quiet. */
  lemma FirstTriggerIsUnique(device: seq<Chunk>, k: nat)
    requires Readable(device)
    requires k < |device| && Triggers(device[k])
    requires forall j :: 0 <= j < k ==> !Triggers(device[j])
    ensures FirstTrigger(device) == Some(k)
  {
  }

  /** The trigger wait of `main`: read chunks one by one, compute the volume, and stop
      at the first chunk whose volume reaches the threshold. Every earlier chunk is
      discarded. */
  method WaitForTrigger(device: seq<Chunk>) returns (trigger: Option<nat>)
    requires Readable(device)
    ensures trigger == FirstTrigger(device)
  {
    trigger := None;
    var i := 0;
    while i < |device|
      invariant 0 <= i <= |device|
      invariant trigger == None
      invariant FirstTriggerFrom(device, i) == FirstTrigger(device)
      decreases |device| - i
    {
      var chunk := device[i];
      var volume := MaxSample(chunk);
      if volume >= TRIGGER_THRESHOLD {
        trigger := Some(i);
        break;
      }
      i := i + 1;
    }
  }

  // ---------------------------------------------------------------------------
  // Window capture

  /** Floor division by a positive divisor brackets the dividend. */
  lemma DivBounds(a: int, b: int)
    requires a >= 0 && b > 0
    ensures 0 <= (a / b) * b <= a < (a / b + 1) * b
  {
    var q, r := a / b, a % b;
    assert a == q * b + r && 0 <= r < b;
    assert (q + 1) * b == q * b + b;
    assert q >= 0;
  }

  /** `int((rate / chunk) * seconds)`: the exact quotient truncated toward zero. */
  function ChunkCount(args: Args): (n: int)
    requires ValidArgs(args)
    ensures args.seconds >= 0 ==> 0 <= n * args.chunk <= args.rate * args.seconds < (n + 1) * args.chunk
    ensures args.seconds < 0 ==> (n - 1) * args.chunk < args.rate * args.seconds <= n * args.chunk <= 0
  {
    var total := args.rate * args.seconds;
    assert args.seconds >= 0 <==> total >= 0;
    if total >= 0 then
      DivBounds(total, args.chunk);
      total / args.chunk
    else
      var q := (-total) / args.chunk;
      DivBounds(-total, args.chunk);
      assert (-q - 1) * args.chunk == -((q + 1) * args.chunk);
      assert -q * args.chunk == -(q * args.chunk);
      -q
  }

  /** How many reads `for _ in range(chunks)` performs: none when `chunks` is negative. */
  function Reads(args: Args): (n: nat)
    requires ValidArgs(args)
    ensures args.seconds <= 0 ==> n == 0
    ensures args.seconds >= 0 ==> n * args.chunk <= args.rate * args.seconds < (n + 1) * args.chunk
  {
    var chunks := ChunkCount(args);
    if chunks < 0 then 0 else chunks
  }

  /** With the default arguments the window is ten chunks of 4410 samples. */
  lemma DefaultReads()
    ensures ValidArgs(DEFAULT_ARGS)
    ensures ChunkCount(DEFAULT_ARGS) == 10 && Reads(DEFAULT_ARGS) == 10
    ensures Reads(DEFAULT_ARGS) * DEFAULT_ARGS.chunk == 44100
  {
    assert 44100 / 4410 == 10;
  }

  /** `b''.join(frames)`: the chunks concatenated in arrival order. */
  function Join(frames: seq<Chunk>): (audio: seq<Sample>)
    ensures frames == [] ==> audio == []
    ensures frames != [] ==> |frames[|frames| - 1]| <= |audio|
  {
    if frames == [] then [] else Join(frames[..|frames| - 1]) + frames[|frames| - 1]
  }

  /** Appending one more read extends the joined buffer by exactly that chunk. */
  lemma JoinAppend(frames: seq<Chunk>, c: Chunk)
    ensures Join(frames + [c]) == Join(frames) + c
  {
    assert (frames + [c])[..|frames|] == frames;
  }

  /** A buffer of `n` full chunks holds `n * chunk` samples. */
  lemma {:induction false} JoinLength(frames: seq<Chunk>, chunk: nat)
    requires Delivers(frames, chunk)
    ensures |Join(frames)| == |frames| * chunk
  {
    if frames != [] {
      var init := frames[..|frames| - 1];
      JoinLength(init, chunk);
      assert |Join(frames)| == |init| * chunk + chunk;
    }
  }

  /** Sample `j` of read `i` sits at offset `i * chunk + j` of the joined buffer. */
  lemma {:induction false} JoinAt(frames: seq<Chunk>, chunk: nat, i: nat, j: nat)
    requires Delivers(frames, chunk)
    requires i < |frames| && j < chunk
    ensures i * chunk + j < |Join(frames)|
    ensures Join(frames)[i * chunk + j] == frames[i][j]
  {
    var last := |frames| - 1;
    var init := frames[..last];
    JoinLength(init, chunk);
    JoinLength(frames, chunk);
    assert Join(frames) == Join(init) + frames[last];
    assert |Join(init)| == last * chunk;
    if i == last {
      assert i * chunk + j == |Join(init)| + j;
    } else {
      JoinAt(init, chunk, i, j);
      assert i * chunk + j < |Join(init)|;
    }
    assert i * chunk + j < |frames| * chunk by {
      assert i * chunk + j < i * chunk + chunk == (i + 1) * chunk <= |frames| * chunk;
    }
  }

  /** `record_audio`: perform `chunks` fresh reads, append each to `frames` in arrival
      order, and join them. The result is `None` when the stream runs out first (the
      source would block on the read). */
  method RecordAudio(args: Args, device: seq<Chunk>) returns (audio: Option<seq<Sample>>)
    requires ValidArgs(args)
    ensures audio.Some? <==> Reads(args) <= |device|
    ensures audio.Some? ==> audio.value == Join(device[..Reads(args)])
  {
    var chunks := Reads(args);
    var frames: seq<Chunk> := [];
    for i := 0 to chunks
      invariant i <= |device|
      invariant frames == device[..i]
    {
      if i == |device| {
        return None;
      }
      var data := device[i];
      JoinAppend(frames, data);
      assert device[..i + 1] == device[..i] + [data];
      frames := frames + [data];
    }
    return Some(Join(frames));
  }

  /** A completed recording holds `chunks * chunk` samples; 44100 with the defaults. */
  lemma RecordingLength(args: Args, device: seq<Chunk>)
    requires ValidArgs(args) && Delivers(device, args.chunk)
    requires Reads(args) <= |device|
    ensures |Join(device[..Reads(args)])| == Reads(args) * args.chunk
    ensures args == DEFAULT_ARGS ==> |Join(device[..Reads(args)])| == 44100
  {
    JoinLength(device[..Reads(args)], args.chunk);
    if args == DEFAULT_ARGS {
      DefaultReads();
    }
  }
}
