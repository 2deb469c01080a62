/** `produceMessage` in `KafkaService`: build the record, add the headers,
    send it and wait for the broker's acknowledgement; every exception on
    the way is caught and reported in the `ProduceResult` instead of being
    thrown.  The send is an input: a function from the record to the
    metadata the broker acknowledges with, or the exception waiting on it
    throws. */
module Produce {

  import opened Wrappers
  import opened JsonValue
  import opened Jvm
  import opened Dto
  import opened Headers

  /** The record handed to the producer. */
  datatype ProducerRecord = ProducerRecord(
    topic: string,
    key: Option<string>,
    value: Option<string>,
    headers: seq<RecordHeader>)

  /** `RecordMetadata`: where the broker stored the record. */
  datatype RecordMetadata = RecordMetadata(topic: string, partition: int32, offset: int, timestamp: int)

  /** The result of an acknowledged send. */
  function Acknowledged(md: RecordMetadata): ProduceResult {
    ProduceResult(md.topic, md.partition, md.offset, md.timestamp, true, None)
  }

  /** The result of a caught exception: the requested topic, the numeric
      fields left at Java's default 0, and the exception's message, which
      may be `null`. */
  function Rejected(topic: string, e: Exception): ProduceResult {
    ProduceResult(topic, 0, 0, 0, false, e.message)
  }

  /** `produceMessage`.  `sent` is the record handed to the producer, `None`
      when converting the headers threw first. */
  method ProduceMessage(
    topic: string,
    key: Option<string>,
    value: Option<string>,
    headers: Option<map<string, Json>>,
    send: ProducerRecord -> Result<RecordMetadata, Exception>,
    jvm: Platform)
    returns (sent: Option<ProducerRecord>, r: ProduceResult)
    ensures sent.Some? <==> headers.None? || AllStrings(headers.value)
    ensures sent.Some? ==> sent.value.topic == topic && sent.value.key == key && sent.value.value == value
    ensures sent.Some? && headers.None? ==> sent.value.headers == []
    ensures sent.Some? && headers.Some? ==> Encodes(headers.value, sent.value.headers, jvm)
    ensures sent.Some? && send(sent.value).Success? ==> r == Acknowledged(send(sent.value).value)
    ensures sent.Some? && send(sent.value).Failure? ==> r == Rejected(topic, send(sent.value).error)
    ensures sent.None? ==>
              exists k :: k in headers.value && !headers.value[k].JString? && r == Rejected(topic, ValueFault(headers.value[k], jvm))
    ensures r.success <==> sent.Some? && send(sent.value).Success?
    ensures !r.success ==> r.topic == topic && r.partition == 0 && r.offset == 0 && r.timestamp == 0
  {
    var encoded := EncodeHeaders(headers, jvm);
    if encoded.Failure? {
      return None, Rejected(topic, encoded.error);
    }
    var record := ProducerRecord(topic, key, value, encoded.value);
    sent := Some(record);
    match send(record)
    case Success(md) => r := Acknowledged(md);
    case Failure(e) => r := Rejected(topic, e);
  }
}
