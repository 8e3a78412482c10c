/** The detection loop of `main` in run.py: wait for a trigger, record a window,
    shape the features, select the top class and publish it, then start over.

    The classifier itself is not modelled: each cycle receives the probability vector
    the TFLite interpreter would return, and the timestamp the clock would give. */
module Surveillance {
  import opened Wrappers
  import opened Audio
  import opened Features
  import opened Inference
  import opened Alerts

  /** The exceptions that end `main`. */
  datatype Failure = ReshapeFailed(error: ShapeError) | EmptyPrediction

  /** What one cycle of the outer loop comes to. */
  datatype CycleResult =
    | Published(message: Message, recording: seq<Sample>, consumed: nat)
    | Blocked           // the stream ran out: the source waits on a read forever
    | Crashed(failure: Failure)

  /** What the environment supplies to one cycle: the chunks the freshly opened
      stream delivers, the classifier's output, and the clock. */
  datatype CycleInput = CycleInput(device: seq<Chunk>, predictions: seq<real>, timestamp: string)

  /** One cycle, as a function of its inputs. It blocks exactly when the stream holds
      no trigger or too few chunks after it; when it publishes, the message goes to the
      alerts topic with the arg-max class, whatever its probability. */
  function Cycle(args: Args, input: CycleInput): (r: CycleResult)
    requires ValidArgs(args) && Delivers(input.device, args.chunk)
    ensures r.Blocked? <==>
              FirstTrigger(input.device).None? || FirstTrigger(input.device).value + 1 + Reads(args) > |input.device|
    ensures r.Published? ==> FirstTrigger(input.device).Some?
    ensures r.Published? ==> r.consumed == FirstTrigger(input.device).value + 1 + Reads(args) <= |input.device|
    ensures r.Published? ==> r.message.topic == ALERTS_TOPIC && |input.predictions| > 0
    ensures r.Published? ==>
              r.message.body == OutcomeBody(input.timestamp, ArgMax(input.predictions), MaxValue(input.predictions))
  {
    var device := input.device;
    match FirstTrigger(device)
    case None => Blocked
    case Some(k) =>
      var start := k + 1;
      var end := start + Reads(args);
      if end > |device| then Blocked
      else
        var recording := Join(device[start..end]);
        match GetMfccs(|recording|, RUN_OPTIONS)
        case Err(e) => Crashed(ReshapeFailed(e))
        case Ok(_) =>
          match MakeInference(input.predictions)
          case None => Crashed(EmptyPrediction)
          case Some(top) =>
            var body := OutcomeBody(input.timestamp, top.index, top.probability);
            Published(Message(ALERTS_TOPIC, body), recording, end)
  }

  /** A cycle that is not blocked publishes exactly when the reshape accepts its
      recording of `chunks * chunk` samples and the classifier returns a non-empty
      vector; otherwise it raises. */
  lemma CyclePublishesIff(args: Args, input: CycleInput)
    requires ValidArgs(args) && Delivers(input.device, args.chunk)
    requires !Cycle(args, input).Blocked?
    ensures Cycle(args, input).Published? <==>
              GetMfccs(Reads(args) * args.chunk, RUN_OPTIONS).Ok? && |input.predictions| > 0
  {
    var k := FirstTrigger(input.device).value;
    JoinLength(input.device[k + 1..k + 1 + Reads(args)], args.chunk);
  }

  /** With `--seconds 2` the recording is 88200 samples, the reshape to the target
      sized for 44100 fails, and no cycle ever publishes. */
  lemma TwoSecondsNeverPublishes(input: CycleInput)
    requires Delivers(input.device, 4410)
    ensures ValidArgs(Args(4410, 2, 44100))
    ensures Reads(Args(4410, 2, 44100)) * 4410 == 88200
    ensures !Cycle(Args(4410, 2, 44100), input).Published?
  {
    var args := Args(4410, 2, 44100);
    assert ChunkCount(args) == 20 by {
      assert 88200 / 4410 == 20;
    }
    RunReshapeSucceedsIff(88200);
    if !Cycle(args, input).Blocked? {
      CyclePublishesIff(args, input);
    }
  }

  /** A completed cycle's recording is the join of the reads that follow the trigger. */
  lemma RecordingIsWindow(args: Args, input: CycleInput)
    requires ValidArgs(args) && Delivers(input.device, args.chunk)
    requires Cycle(args, input).Published?
    ensures Cycle(args, input).recording ==
              Join(input.device[FirstTrigger(input.device).value + 1..Cycle(args, input).consumed])
  {
  }

  /** The layout of a window of `n` full reads taken after chunk `k`: its length,
      and where each sample of each read lands. */
  lemma WindowLayout(device: seq<Chunk>, chunk: nat, k: nat, n: nat, recording: seq<Sample>, i: nat, j: nat)
    requires Delivers(device, chunk) && k + 1 + n <= |device|
    requires recording == Join(device[k + 1..k + 1 + n])
    requires i < n && j < chunk
    ensures |recording| == n * chunk
    ensures 0 <= i * chunk + j < |recording| && recording[i * chunk + j] == device[k + 1 + i][j]
  {
    var frames := device[k + 1..k + 1 + n];
    JoinLength(frames, chunk);
    JoinAt(frames, chunk, i, j);
    assert frames[i] == device[k + 1 + i];
  }

  /** The recording starts with the chunk after the first triggering one: that chunk
      and every chunk before it are discarded, and sample `j` of the `i`-th recorded
      read is the `j`-th sample of chunk `k + 1 + i`. */
  lemma {:induction false} TriggerChunkNotRecorded(args: Args, input: CycleInput, i: nat, j: nat)
    requires ValidArgs(args) && Delivers(input.device, args.chunk)
    requires Cycle(args, input).Published?
    requires i < Reads(args) && j < args.chunk
    ensures FirstTrigger(input.device).Some?
    ensures Cycle(args, input).consumed == FirstTrigger(input.device).value + 1 + Reads(args) <= |input.device|
    ensures forall m :: 0 <= m < FirstTrigger(input.device).value ==> !Triggers(input.device[m])
    ensures |Cycle(args, input).recording| == Reads(args) * args.chunk
    ensures 0 <= i * args.chunk + j < |Cycle(args, input).recording|
    ensures Cycle(args, input).recording[i * args.chunk + j] == input.device[FirstTrigger(input.device).value + 1 + i][j]
  {
    RecordingIsWindow(args, input);
    WindowLayout(input.device, args.chunk, FirstTrigger(input.device).value, Reads(args), Cycle(args, input).recording, i, j);
  }

  /** There is no confidence gate: with the default arguments, a stream that triggers
      and then delivers a full window, and any non-empty probability vector, the cycle
      publishes the arg-max class with its probability rounded to two places. */
  lemma NoConfidenceGate(input: CycleInput, k: nat)
    requires Delivers(input.device, DEFAULT_ARGS.chunk)
    requires FirstTrigger(input.device) == Some(k) && k + 11 <= |input.device|
    requires |input.predictions| > 0
    ensures ValidArgs(DEFAULT_ARGS)
    ensures Cycle(DEFAULT_ARGS, input).Published?
    ensures Cycle(DEFAULT_ARGS, input).message.topic == ALERTS_TOPIC
    ensures Cycle(DEFAULT_ARGS, input).message.body ==
              OutcomeBody(input.timestamp, ArgMax(input.predictions), MaxValue(input.predictions))
  {
    DefaultReads();
    var frames := input.device[k + 1..k + 11];
    JoinLength(frames, DEFAULT_ARGS.chunk);
    RunReshapeSucceedsIff(|Join(frames)|);
    MaxIsValueAtArgMax(input.predictions);
  }

  /** The source publishes even an exact tie at one half: class 0, confidence 0.5. */
  lemma TieIsPublished(input: CycleInput, k: nat)
    requires Delivers(input.device, DEFAULT_ARGS.chunk)
    requires FirstTrigger(input.device) == Some(k) && k + 11 <= |input.device|
    requires input.predictions == [0.5, 0.5]
    ensures Cycle(DEFAULT_ARGS, input).Published?
    ensures Cycle(DEFAULT_ARGS, input).message.body["class"] == JInt(0)
    ensures Cycle(DEFAULT_ARGS, input).message.body["confidence"] == JNumber(0.5)
  {
    NoConfidenceGate(input, k);
    SelectionExamples();
    RoundHalfEvenIsUnique(50.0, 50);
  }

  /** One pass of the outer loop: open (here: take) the stream, wait for the trigger,
      record, shape, infer and publish. */
  method RunCycle(args: Args, publisher: Publisher, input: CycleInput) returns (result: CycleResult)
    requires ValidArgs(args) && Delivers(input.device, args.chunk)
    modifies publisher
    ensures result == Cycle(args, input)
    ensures publisher.sent == old(publisher.sent) + (if result.Published? then [result.message] else [])
  {
    var device := input.device;
    var trigger := WaitForTrigger(device);
    if trigger.None? {
      return Blocked;
    }
    var start := trigger.value + 1;
    var audio := RecordAudio(args, device[start..]);
    if audio.None? {
      return Blocked;
    }
    assert device[start..][..Reads(args)] == device[start..start + Reads(args)];
    var mfccs := GetMfccs(|audio.value|, RUN_OPTIONS);
    if mfccs.Err? {
      return Crashed(ReshapeFailed(mfccs.error));
    }
    var top := MakeInference(input.predictions);
    if top.None? {
      return Crashed(EmptyPrediction);
    }
    PublishOutcome(publisher, input.timestamp, top.value.index, top.value.probability);
    var body := OutcomeBody(input.timestamp, top.value.index, top.value.probability);
    result := Published(Message(ALERTS_TOPIC, body), audio.value, start + Reads(args));
  }

  /** Every input's stream delivers full chunks. */
  predicate AllDeliver(args: Args, inputs: seq<CycleInput>) {
    forall i :: 0 <= i < |inputs| ==> Delivers(inputs[i].device, args.chunk)
  }

  /** The messages a run of cycles published, in order: one for each cycle that
      completed, none for the others. */
  function Messages(results: seq<CycleResult>): (r: seq<Message>)
  {
    if results == [] then []
    else
      var last := results[|results| - 1];
      Messages(results[..|results| - 1]) + (if last.Published? then [last.message] else [])
  }

  /** When every cycle of a run completed, the run published exactly one message per
      cycle, the `i`-th of them by the `i`-th cycle. */
  lemma {:induction false} OneMessagePerCycle(results: seq<CycleResult>)
    requires forall i :: 0 <= i < |results| ==> results[i].Published?
    ensures |Messages(results)| == |results|
    ensures forall i :: 0 <= i < |results| ==> Messages(results)[i] == results[i].message
  {
    if results != [] {
      OneMessagePerCycle(results[..|results| - 1]);
    }
  }

  /** One more cycle adds its message if it completed, and nothing otherwise. */
  lemma MessagesAppend(results: seq<CycleResult>, last: CycleResult)
    ensures Messages(results + [last]) == Messages(results) + (if last.Published? then [last.message] else [])
  {
    assert (results + [last])[..|results|] == results;
  }

  /** A cycle that does not complete adds no message: the silent case of
      `MessagesAppend`, stated on its own for readers. */
  lemma SilentCycleAddsNothing(results: seq<CycleResult>, last: CycleResult)
    requires !last.Published?
    ensures Messages(results + [last]) == Messages(results)
  {
    MessagesAppend(results, last);
  }

  /** Every message a run of cycles published went to the alerts topic. */
  lemma {:induction false} MessagesUseAlertsTopic(args: Args, inputs: seq<CycleInput>, results: seq<CycleResult>)
    requires ValidArgs(args) && AllDeliver(args, inputs)
    requires |results| <= |inputs|
    requires forall j :: 0 <= j < |results| ==> results[j] == Cycle(args, inputs[j])
    ensures forall m :: m in Messages(results) ==> m.topic == ALERTS_TOPIC
  {
    if results != [] {
      MessagesUseAlertsTopic(args, inputs, results[..|results| - 1]);
    }
  }

  /** What each of the first `n` inputs comes to as a cycle, in order. */
  function Outcomes(args: Args, inputs: seq<CycleInput>, n: nat): (results: seq<CycleResult>)
    requires ValidArgs(args) && AllDeliver(args, inputs)
    requires n <= |inputs|
    ensures |results| == n
  {
    if n == 0 then [] else Outcomes(args, inputs, n - 1) + [Cycle(args, inputs[n - 1])]
  }

  /** The `i`-th outcome is the cycle run on the `i`-th input. */
  lemma {:induction false} OutcomesAt(args: Args, inputs: seq<CycleInput>, n: nat, i: nat)
    requires ValidArgs(args) && AllDeliver(args, inputs)
    requires i < n <= |inputs|
    ensures Outcomes(args, inputs, n)[i] == Cycle(args, inputs[i])
  {
    if i < n - 1 {
      OutcomesAt(args, inputs, n - 1, i);
    }
  }

  /** Every outcome of the first `n` inputs is the cycle run on its input. */
  lemma OutcomesOfPrefix(args: Args, inputs: seq<CycleInput>, n: nat)
    requires ValidArgs(args) && AllDeliver(args, inputs)
    requires n <= |inputs|
    ensures forall j :: 0 <= j < n ==> Outcomes(args, inputs, n)[j] == Cycle(args, inputs[j])
  {
    forall j | 0 <= j < n
      ensures Outcomes(args, inputs, n)[j] == Cycle(args, inputs[j])
    {
      OutcomesAt(args, inputs, n, j);
    }
  }

  /** One pass of the outer loop after `|results|` earlier ones: run the next cycle and
      record what it came to, beside the messages it published. */
  method RunNextCycle(args: Args, publisher: Publisher, inputs: seq<CycleInput>, results: seq<CycleResult>, ghost before: seq<Message>)
    returns (next: seq<CycleResult>)
    requires ValidArgs(args) && AllDeliver(args, inputs)
    requires |results| < |inputs| && results == Outcomes(args, inputs, |results|)
    requires publisher.sent == before + Messages(results)
    modifies publisher
    ensures next == Outcomes(args, inputs, |results| + 1)
    ensures publisher.sent == before + Messages(next)
  {
    var result := RunCycle(args, publisher, inputs[|results|]);
    MessagesAppend(results, result);
    next := results + [result];
  }

  /** The outer `while True` loop over a finite run of inputs. Each cycle runs on its
      own input; the loop stops after the first cycle that does not publish (the source
      blocks there, or the exception ends the process). The result lists what each
      cycle that ran came to. */
  method Listen(args: Args, publisher: Publisher, inputs: seq<CycleInput>) returns (results: seq<CycleResult>)
    requires ValidArgs(args) && AllDeliver(args, inputs)
    modifies publisher
    ensures |results| <= |inputs|
    ensures forall i :: 0 <= i < |results| ==> results[i] == Cycle(args, inputs[i])
    ensures forall i :: 0 <= i < |results| - 1 ==> results[i].Published?
    ensures |results| < |inputs| ==> results != [] && !results[|results| - 1].Published?
    ensures publisher.sent == old(publisher.sent) + Messages(results)
  {
    results := [];
    var i := 0;
    while i < |inputs|
      invariant i <= |inputs|
      invariant results == Outcomes(args, inputs, i)
      invariant forall j :: 0 <= j < i ==> results[j].Published?
      invariant publisher.sent == old(publisher.sent) + Messages(results)
      decreases |inputs| - i
    {
      results := RunNextCycle(args, publisher, inputs, results, old(publisher.sent));
      i := i + 1;
      if !results[i - 1].Published? {
        break;
      }
    }
    OutcomesOfPrefix(args, inputs, i);
  }
}
