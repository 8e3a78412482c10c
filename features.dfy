/** The tensor shapes of `get_mfccs` in run.py.

    The numeric work (short-time Fourier transform, magnitude, mel projection,
    log compression, discrete cosine transform) happens in floating point inside
    TensorFlow; this module models only the shapes those steps produce and the one
    check that can fail, the final reshape. */
module Features {
  import opened Wrappers

  /** The spectral options `get_mfccs` fixes as local constants. */
  datatype MfccOptions = MfccOptions(
    frameLength: int,
    frameStep: int,
    numMelBins: int,
    lowerFrequency: int,
    upperFrequency: int,
    numCoefficients: int)

  /** The options of run.py. */
  const RUN_OPTIONS := MfccOptions(1764, 882, 40, 20, 4000, 10)

  /** The 44.1 kHz options of the training script: frame and hop doubled. */
  const TRAIN_OPTIONS := MfccOptions(1764 * 2, 882 * 2, 40, 20, 4000, 10)

  /** The window length `get_mfccs` assumes when it sizes the reshape: one second at 44.1 kHz. */
  const ASSUMED_LENGTH := 44100

  predicate ValidOptions(o: MfccOptions) {
    0 < o.frameLength <= ASSUMED_LENGTH && 0 < o.frameStep && 0 < o.numMelBins && 0 < o.numCoefficients
  }

  /** `(length - frame_length) // frame_step + 1` (Python's `//` floors, as Dafny's `/`
      does for a positive divisor). */
  function FrameCount(length: int, o: MfccOptions): (t: int)
    requires o.frameStep > 0
    ensures (t - 1) * o.frameStep <= length - o.frameLength < t * o.frameStep
  {
    var d := length - o.frameLength;
    var q, r := d / o.frameStep, d % o.frameStep;
    assert d == q * o.frameStep + r && 0 <= r < o.frameStep;
    assert (q + 1) * o.frameStep == q * o.frameStep + o.frameStep;
    q + 1
  }

  /** `frame_length // 2 + 1`: the rows of the mel weight matrix, which equal the bins
      of a real FFT of length `frame_length`. */
  function SpectrogramBins(o: MfccOptions): (bins: int)
    ensures 2 * (bins - 1) <= o.frameLength < 2 * bins
  {
    o.frameLength / 2 + 1
  }

  /** Frame `k` (starting at sample `k * frame_step`) fits in the signal exactly when
      `k` is below the frame count: the formula counts the whole frames. */
  lemma FrameFits(length: int, o: MfccOptions, k: nat)
    requires o.frameStep > 0
    ensures k < FrameCount(length, o) <==> k * o.frameStep + o.frameLength <= length
  {
    var d := length - o.frameLength;
    var q, r := d / o.frameStep, d % o.frameStep;
    assert d == q * o.frameStep + r && 0 <= r < o.frameStep;
    if k <= q {
      assert k * o.frameStep <= q * o.frameStep;
    } else {
      assert k * o.frameStep >= (q + 1) * o.frameStep == q * o.frameStep + o.frameStep;
    }
  }

  /** The frame count is positive exactly when the signal holds at least one frame. */
  lemma FrameCountPositiveIff(length: int, o: MfccOptions)
    requires o.frameStep > 0
    ensures FrameCount(length, o) > 0 <==> length >= o.frameLength
  {
    FrameFits(length, o, 0);
  }

  /** The frames `tf.signal.stft` cuts without end padding: none when the signal is
      shorter than one frame. */
  function StftFrames(length: nat, o: MfccOptions): (frames: nat)
    requires o.frameStep > 0
    ensures frames == 0 <==> length < o.frameLength
    ensures frames > 0 ==> (frames - 1) * o.frameStep + o.frameLength <= length
    ensures frames > 0 ==> length < frames * o.frameStep + o.frameLength
  {
    if length < o.frameLength then 0 else FrameCount(length, o)
  }

  /** `mfccs[..., :num_coefficients]` on the `num_mel_bins` coefficients per frame. */
  function RetainedCoefficients(o: MfccOptions): (kept: nat)
    requires ValidOptions(o)
    ensures kept <= o.numCoefficients && kept <= o.numMelBins
    ensures kept == o.numCoefficients || kept == o.numMelBins
  {
    if o.numCoefficients <= o.numMelBins then o.numCoefficients else o.numMelBins
  }

  /** A tensor shape, one entry per dimension. */
  type Shape = seq<int>

  /** The number of elements a tensor of this shape holds. */
  function Elements(s: Shape): int {
    if s == [] then 1 else s[0] * Elements(s[1..])
  }

  /** `[1, spectrogram_width, num_coefficients, 1]`, sized from the assumed length. */
  function TargetShape(o: MfccOptions): (s: Shape)
    requires ValidOptions(o)
    ensures |s| == 4 && s[0] == 1 && s[1] == FrameCount(ASSUMED_LENGTH, o) && s[2] == o.numCoefficients && s[3] == 1
    ensures Elements(s) == FrameCount(ASSUMED_LENGTH, o) * o.numCoefficients
  {
    var t := FrameCount(ASSUMED_LENGTH, o);
    assert Elements([1]) == 1;
    assert Elements([o.numCoefficients, 1]) == o.numCoefficients;
    [1, t, o.numCoefficients, 1]
  }

  datatype ShapeError = ReshapeMismatch(elements: int, target: Shape)

  /** The shape of the tensor `get_mfccs` returns for a signal of `length` samples:
      the reshape succeeds only when the truncated coefficient matrix holds exactly as
      many elements as the target shape, and raises otherwise. */
  function GetMfccs(length: nat, o: MfccOptions): (r: Result<Shape, ShapeError>)
    requires ValidOptions(o)
    ensures r.Ok? <==> StftFrames(length, o) * RetainedCoefficients(o) == Elements(TargetShape(o))
    ensures r.Ok? ==> |r.value| == 4 && r.value[0] == 1 && r.value[2] == o.numCoefficients && r.value[3] == 1
    ensures r.Ok? ==> Elements(r.value) == StftFrames(length, o) * RetainedCoefficients(o)
    ensures r.Ok? ==> r.value == TargetShape(o)
  {
    var elements := StftFrames(length, o) * RetainedCoefficients(o);
    var target := TargetShape(o);
    if elements == Elements(target) then Ok(target) else Err(ReshapeMismatch(elements, target))
  }

  /** The constants of run.py: 49 frames of 883 bins, 10 of 40 coefficients kept, and a
      reshape target `[1, 49, 10, 1]` of 490 elements. */
  lemma RunShapeConstants()
    ensures ValidOptions(RUN_OPTIONS)
    ensures FrameCount(ASSUMED_LENGTH, RUN_OPTIONS) == 49
    ensures SpectrogramBins(RUN_OPTIONS) == 883
    ensures RetainedCoefficients(RUN_OPTIONS) == 10
    ensures TargetShape(RUN_OPTIONS) == [1, 49, 10, 1]
    ensures Elements(TargetShape(RUN_OPTIONS)) == 490
  {
    assert (44100 - 1764) / 882 == 48;
    assert Elements([1]) == 1;
    assert Elements([10, 1]) == 10;
    assert Elements([49, 10, 1]) == 490;
  }

  /** With the options of run.py the reshape succeeds exactly for signals of 44100 to
      44981 samples, the lengths that yield 49 frames. */
  lemma {:induction false} RunReshapeSucceedsIff(length: nat)
    ensures GetMfccs(length, RUN_OPTIONS).Ok? <==> 44100 <= length < 44982
  {
    RunShapeConstants();
    var frames := StftFrames(length, RUN_OPTIONS);
    assert GetMfccs(length, RUN_OPTIONS).Ok? <==> frames == 49;
    if 44100 <= length < 44982 {
      FrameFits(length, RUN_OPTIONS, 48);
      FrameFits(length, RUN_OPTIONS, 49);
    } else if length >= 44982 {
      FrameFits(length, RUN_OPTIONS, 49);
    } else if length >= 1764 {
      FrameFits(length, RUN_OPTIONS, 48);
    }
  }

  /** A signal of exactly the assumed length always passes the reshape, whatever the
      (valid) options, provided no more coefficients are kept than exist. */
  lemma ReshapeSucceedsAtAssumedLength(o: MfccOptions)
    requires ValidOptions(o) && o.numCoefficients <= o.numMelBins
    ensures GetMfccs(ASSUMED_LENGTH, o).Ok?
    ensures GetMfccs(ASSUMED_LENGTH, o).value == TargetShape(o)
  {
    var t := FrameCount(ASSUMED_LENGTH, o);
    assert Elements([1]) == 1;
    assert Elements([o.numCoefficients, 1]) == o.numCoefficients;
    assert Elements([t, o.numCoefficients, 1]) == t * o.numCoefficients;
  }

  /** The training options double frame and hop, so on a signal of 88200 samples they
      also yield 49 frames. */
  lemma TrainingWindowFrames()
    ensures ValidOptions(TRAIN_OPTIONS)
    ensures FrameCount(88200, TRAIN_OPTIONS) == 49
    ensures SpectrogramBins(TRAIN_OPTIONS) == 1765
  {
    assert (88200 - 3528) / 1764 == 48;
  }
}
