/** `publish_outcome` in run.py: the three-field record and its single publish.

    The MQTT client is modelled as the log of messages handed to it; the JSON text
    `json.dumps` makes of the record is not modelled, the message carries the record. */
module Alerts {

  /** The fixed topic every outcome is published to. */
  const ALERTS_TOPIC := "/R0001/alerts"

  /** The JSON values the record holds. */
  datatype JsonValue = JString(text: string) | JInt(number: int) | JNumber(decimal: real)

  /** A JSON object. */
  type Body = map<string, JsonValue>

  datatype Message = Message(topic: string, body: Body)

  /** Rounding to the nearest integer with ties to the even one, as Python 3's `round`. */
  function RoundHalfEven(y: real): (n: int)
    ensures -0.5 <= n as real - y <= 0.5
    ensures (n as real - y == 0.5 || y - n as real == 0.5) ==> n % 2 == 0
  {
    var k := y.Floor;
    var f := y - k as real;
    if f > 0.5 then k + 1
    else if f < 0.5 then k
    else if k % 2 == 0 then k
    else k + 1
  }

  /** The nearest-integer and ties-to-even conditions determine the rounded value. */
  lemma RoundHalfEvenIsUnique(y: real, m: int)
    requires -0.5 <= m as real - y <= 0.5
    requires (m as real - y == 0.5 || y - m as real == 0.5) ==> m % 2 == 0
    ensures RoundHalfEven(y) == m
  {
  }

  /** `round(x, 2)` on the exact value: the nearest multiple of 0.01, ties to even. */
  function Round2(x: real): (r: real)
    ensures -0.005 <= r - x <= 0.005
    ensures (r * 100.0).Floor as real == r * 100.0
    ensures (r * 100.0 - x * 100.0 == 0.5 || x * 100.0 - r * 100.0 == 0.5) ==> (r * 100.0).Floor % 2 == 0
  {
    var n := RoundHalfEven(x * 100.0);
    var r := n as real / 100.0;
    assert r * 100.0 == n as real;
    assert r - x == (n as real - x * 100.0) / 100.0;
    r
  }

  /** Rounding an already rounded value changes nothing. */
  lemma Round2Idempotent(x: real)
    ensures Round2(Round2(x)) == Round2(x)
  {
    var n := RoundHalfEven(x * 100.0);
    assert Round2(x) * 100.0 == n as real;
    RoundHalfEvenIsUnique(n as real, n);
  }

  /** Three values rounded by hand, the last a tie. */
  lemma Round2Examples()
    ensures Round2(0.8234) == 0.82
    ensures Round2(0.85) == 0.85
    ensures Round2(0.125) == 0.12
  {
    RoundHalfEvenIsUnique(82.34, 82);
    RoundHalfEvenIsUnique(85.0, 85);
    RoundHalfEvenIsUnique(12.5, 12);
  }

  /** The record `body`: exactly the keys `timestamp`, `class` and `confidence`; the
      class is the predicted index and the confidence the probability to two places. */
  function OutcomeBody(timestamp: string, prediction: nat, probability: real): (body: Body)
    ensures body.Keys == {"timestamp", "class", "confidence"}
    ensures body["timestamp"] == JString(timestamp)
    ensures body["class"] == JInt(prediction)
    ensures body["confidence"] == JNumber(Round2(probability))
    ensures -0.005 <= body["confidence"].decimal - probability <= 0.005
  {
    map["timestamp" := JString(timestamp),
        "class" := JInt(prediction),
        "confidence" := JNumber(Round2(probability))]
  }

  /** The MQTT publisher: it records every message handed to it, in order. */
  class Publisher {
    var sent: seq<Message>

    constructor ()
      ensures sent == []
    {
      sent := [];
    }

    /** `myPublish(topic, payload)`: hand one message to the transport. */
    method MyPublish(topic: string, body: Body)
      modifies this
      ensures sent == old(sent) + [Message(topic, body)]
    {
      sent := sent + [Message(topic, body)];
    }
  }

  /** `publish_outcome`: build the record and publish it once, to the alerts topic,
      whatever the confidence. */
  method PublishOutcome(publisher: Publisher, timestamp: string, prediction: nat, probability: real)
    modifies publisher
    ensures publisher.sent == old(publisher.sent) + [Message(ALERTS_TOPIC, OutcomeBody(timestamp, prediction, probability))]
  {
    var body := OutcomeBody(timestamp, prediction, probability);
    publisher.MyPublish(ALERTS_TOPIC, body);
  }
}
