/** `KafkaToolProvider`: the tool surface.  Each tool fills in defaults for
    the arguments the caller left `null`, calls the service, and wraps the
    answer as JSON; any exception becomes the object
    {success: false, error: <tool's prefix><exception message>}, and a
    value Jackson cannot write becomes {error: "Failed to serialize
    response"}.  Whether Jackson can write a value is the oracle
    `writable`; the service calls are the models of the other modules,
    with the broker's answers as inputs. */
module Tools {

  import opened Wrappers
  import opened JsonValue
  import opened Jvm
  import opened Text
  import opened Dto
  import opened DtoJson
  import opened Headers
  import opened Polling
  import opened ConsumerProps
  import opened Topics
  import opened Groups
  import opened Produce

  // ---------------------------------------------------------------------
  // Serialization and the error envelope
  // ---------------------------------------------------------------------

  /** The fixed answer when serialization fails. */
  const SerializeFailure: Json := JObject(map["error" := JString("Failed to serialize response")])

  /** `toJson`: the value itself when Jackson can write it, else the fixed answer. */
  function ToJson(v: Json, writable: Json -> bool): (r: Json)
    ensures r == v || r == SerializeFailure
    ensures writable(v) ==> r == v
    ensures !writable(v) ==> r == SerializeFailure
  {
    if writable(v) then v else SerializeFailure
  }

  /** `r` is what `toJson` answers for `v`: `v` itself when Jackson can
      write it, the fixed answer otherwise.  The tools' contracts say which
      `v` they hand to `toJson`; its readers say what `v` holds. */
  predicate Serializes(r: Json, v: Json, writable: Json -> bool) {
    (writable(v) ==> r == v) && (!writable(v) ==> r == SerializeFailure)
  }

  /** The object `errorResponse` builds before serializing it. */
  function ErrorEnvelope(message: string): Json {
    JObject(map["success" := JBool(false), "error" := JString(message)])
  }

  /** The error envelope, or the fixed answer: either way an `error` text
      the caller can read, and never a `success` other than `false`. */
  function ErrorResponse(message: string, writable: Json -> bool): (r: Json)
    ensures ErrorText(r) == Some(if writable(ErrorEnvelope(message)) then message else "Failed to serialize response")
    ensures Field(r, "success").Some? ==> Field(r, "success") == Some(JBool(false))
  {
    ToJson(ErrorEnvelope(message), writable)
  }

  /** The `error` text of a response, if it has one. */
  function ErrorText(r: Json): Option<string> {
    match Field(r, "error")
    case Some(JString(s)) => Some(s)
    case _ => None
  }

  /** The `message` text of a response, if it has one. */
  function MessageText(r: Json): Option<string> {
    match Field(r, "message")
    case Some(JString(s)) => Some(s)
    case _ => None
  }

  /** A response is the error envelope: exactly the two fields, `success`
      false and an `error` text. */
  predicate IsErrorEnvelope(r: Json) {
    r.JObject? && r.fields.Keys == {"success", "error"} && r.fields["success"] == JBool(false) && r.fields["error"].JString?
  }

  /** The message a tool reports for exception `e`. */
  function Failed(prefix: string, e: Exception): string {
    prefix + Concat(e.message)
  }

  /** The failure message keeps the exception's text after the tool's
      prefix, or "null" for an exception without one. */
  lemma FailedRoundTrip(prefix: string, e: Exception)
    ensures StripPrefix(Failed(prefix, e), prefix) == Some(Concat(e.message))
    ensures e.message.Some? ==> StripPrefix(Failed(prefix, e), prefix) == Some(e.message.value)
  {
    StripPrefixConcat(prefix, Concat(e.message));
  }

  /** Every failing tool answer, envelope or fixed answer, carries an
      `error` text, and the envelope is recognised as one. */
  lemma ErrorResponseIsReadable(message: string, writable: Json -> bool)
    ensures ErrorText(ErrorResponse(message, writable)).Some?
    ensures writable(ErrorEnvelope(message)) ==> IsErrorEnvelope(ErrorResponse(message, writable))
    ensures !writable(ErrorEnvelope(message)) ==> Field(ErrorResponse(message, writable), "success").None?
  {
  }

  // ---------------------------------------------------------------------
  // Argument defaults
  // ---------------------------------------------------------------------

  /** `createTopic`: one partition and a replication factor of one when
      not given; a given replication factor narrowed to `short`. */
  function CreateTopicArgs(partitions: Option<int32>, replicationFactor: Option<int32>): (r: (int32, int16))
    ensures partitions.Some? ==> r.0 == partitions.value
    ensures partitions.None? ==> r.0 == 1
    ensures replicationFactor.None? ==> r.1 == 1
    ensures replicationFactor.Some? ==> (r.1 - replicationFactor.value) % 0x1_0000 == 0
    ensures replicationFactor.Some? && 0 < replicationFactor.value < 0x8000 ==> r.1 == replicationFactor.value
  {
    (partitions.GetOr(1), if replicationFactor.Some? then ShortValue(replicationFactor.value) else 1)
  }

  /** A replication factor of 2^16 + 1 reaches the broker as 1: the
      narrowing wraps rather than rejecting. */
  lemma ReplicationFactorWraps()
    ensures CreateTopicArgs(None, Some(0x1_0001)).1 == 1
    ensures CreateTopicArgs(None, Some(0x8000)).1 == -0x8000
  {
  }

  /** `consumeMessages`: ten messages, from the beginning, ten seconds,
      each when not given; the timeout reaches the service in milliseconds. */
  function ConsumeArgs(maxMessages: Option<int32>, fromBeginning: Option<bool>, timeoutSeconds: Option<int32>): (r: (int32, bool, int))
    ensures r.0 == (if maxMessages.Some? then maxMessages.value else 10)
    ensures r.1 == (fromBeginning != Some(false))
    ensures r.2 == 1000 * (if timeoutSeconds.Some? then timeoutSeconds.value else 10)
  {
    (maxMessages.GetOr(10), fromBeginning.GetOr(true), timeoutSeconds.GetOr(10) * 1000)
  }

  /** `peekMessages`: five messages when not given. */
  function PeekCount(count: Option<int32>): (r: int32)
    ensures count.Some? ==> r == count.value
    ensures count.None? ==> r == 5
  {
    count.GetOr(5)
  }

  /** `produceMessage` parses the headers text only when it is present and
      not blank; otherwise the service gets `null` headers. */
  predicate ParsesHeaders(headersJson: Option<string>) {
    headersJson.Some? && !IsBlank(headersJson.value)
  }

  // ---------------------------------------------------------------------
  // The list wrappers
  // ---------------------------------------------------------------------

  /** `count` (or `messagesReturned`) is the length of the array beside it. */
  predicate Counts(r: Json, listKey: string, countKey: string) {
    && Field(r, listKey).Some? && Field(r, listKey).value.JArray?
    && Field(r, countKey) == Some(JNumber(|Field(r, listKey).value.items|))
  }

  /** A list answer `{<key>: [...], count: n}`. */
  function ListWrapper(key: string, names: seq<string>): (j: Json)
    requires key != "count"
    ensures Counts(j, key, "count")
    ensures Field(j, key) == Some(StringArray(names))
  {
    JObject(map[key := StringArray(names), "count" := JNumber(|names|)])
  }

  /** `listTopics`: the topic names and their count. */
  function ListTopicsTool(topics: Result<seq<string>, Exception>, writable: Json -> bool): (r: Json)
    ensures topics.Success? ==> Serializes(r, ListWrapper("topics", topics.value), writable)
    ensures topics.Success? && writable(ListWrapper("topics", topics.value)) ==>
              Counts(r, "topics", "count") && Field(r, "topics") == Some(StringArray(topics.value))
    ensures topics.Failure? ==> r == ErrorResponse(Failed("Failed to list topics: ", topics.error), writable)
  {
    match topics
    case Success(names) => ToJson(ListWrapper("topics", names), writable)
    case Failure(e) => ErrorResponse(Failed("Failed to list topics: ", e), writable)
  }

  /** `listConsumerGroups`: the group ids and their count. */
  function ListConsumerGroupsTool(groups: Result<seq<string>, Exception>, writable: Json -> bool): (r: Json)
    ensures groups.Success? ==> Serializes(r, ListWrapper("consumerGroups", groups.value), writable)
    ensures groups.Success? && writable(ListWrapper("consumerGroups", groups.value)) ==>
              Counts(r, "consumerGroups", "count") && Field(r, "consumerGroups") == Some(StringArray(groups.value))
    ensures groups.Failure? ==> r == ErrorResponse(Failed("Failed to list consumer groups: ", groups.error), writable)
  {
    match groups
    case Success(ids) => ToJson(ListWrapper("consumerGroups", ids), writable)
    case Failure(e) => ErrorResponse(Failed("Failed to list consumer groups: ", e), writable)
  }

  // ---------------------------------------------------------------------
  // Topic tools
  // ---------------------------------------------------------------------

  /** `describeTopic`: the flattened description, read back whole from
      the answer when Jackson can write it. */
  function DescribeTopicTool(topicName: string, description: Result<TopicDescription, Exception>, config: Result<seq<ConfigEntry>, Exception>, writable: Json -> bool): (r: Json)
    ensures var info := DescribeTopic(description, config);
            && (info.Success? ==> Serializes(r, TopicInfoJson(info.value), writable))
            && (info.Success? && writable(TopicInfoJson(info.value)) ==>
                  TopicInfoOf(r) == Some(info.value) && Field(r, "partitionCount") == Some(JNumber(|info.value.partitions|)))
            && (info.Failure? ==> r == ErrorResponse(Failed("Failed to describe topic '" + topicName + "': ", info.error), writable))
  {
    match DescribeTopic(description, config)
    case Success(info) => ToJson(TopicInfoJson(info), writable)
    case Failure(e) => ErrorResponse(Failed("Failed to describe topic '" + topicName + "': ", e), writable)
  }

  /** The answer of a topic creation or deletion that went through. */
  function Done(message: string): Json {
    JObject(map["success" := JBool(true), "message" := JString(message)])
  }

  lemma DoneFields(message: string)
    ensures Field(Done(message), "success") == Some(JBool(true))
    ensures MessageText(Done(message)) == Some(message)
  {
  }

  /** `createTopic`: the defaults, then the message of `Topics.CreateTopic`,
      which reads back as the topic, the partition count and the narrowed
      replication factor. */
  function CreateTopicTool(topicName: string, partitions: Option<int32>, replicationFactor: Option<int32>, outcome: Option<Exception>, writable: Json -> bool): (r: Json)
    ensures var (p, rf) := CreateTopicArgs(partitions, replicationFactor);
            outcome.None? ==> Serializes(r, Done(CreatedMessage(topicName, p, rf)), writable)
    ensures outcome.None? && writable(Done(CreatedMessage(topicName, CreateTopicArgs(partitions, replicationFactor).0, CreateTopicArgs(partitions, replicationFactor).1))) ==>
              && Field(r, "success") == Some(JBool(true))
              && MessageText(r).Some?
              && ParseCreated(MessageText(r).value)
                 == Some((topicName, CreateTopicArgs(partitions, replicationFactor).0 as int, CreateTopicArgs(partitions, replicationFactor).1 as int))
    ensures outcome.Some? ==> r == ErrorResponse(Failed("Failed to create topic '" + topicName + "': ", outcome.value), writable)
  {
    var args := CreateTopicArgs(partitions, replicationFactor);
    var created := CreateTopic(topicName, args.0, args.1, outcome);
    if created.Success? then
      DoneFields(created.value);
      ToJson(Done(created.value), writable)
    else
      ErrorResponse(Failed("Failed to create topic '" + topicName + "': ", created.error), writable)
  }

  /** `deleteTopic`: the message of `Topics.DeleteTopic`, which reads back
      as the topic's name. */
  function DeleteTopicTool(topicName: string, outcome: Option<Exception>, writable: Json -> bool): (r: Json)
    ensures outcome.None? ==> Serializes(r, Done(DeletedMessage(topicName)), writable)
    ensures outcome.None? && writable(Done(DeletedMessage(topicName))) ==>
              Field(r, "success") == Some(JBool(true)) && MessageText(r).Some?
              && ParseDeleted(MessageText(r).value) == Some(topicName)
    ensures outcome.Some? ==> r == ErrorResponse(Failed("Failed to delete topic '" + topicName + "': ", outcome.value), writable)
  {
    var deleted := DeleteTopic(topicName, outcome);
    if deleted.Success? then
      DoneFields(deleted.value);
      ToJson(Done(deleted.value), writable)
    else
      ErrorResponse(Failed("Failed to delete topic '" + topicName + "': ", deleted.error), writable)
  }

  // ---------------------------------------------------------------------
  // produceMessage
  // ---------------------------------------------------------------------

  /** `produceMessage`.  `parse` is Jackson reading the headers text into a
      map (`None` for the JSON literal `null`), or the exception it throws.
      A failed send is not an exception here: it comes back as a
      `ProduceResult` with `success` false. */
  method ProduceTool(
    topicName: string,
    message: Option<string>,
    key: Option<string>,
    headersJson: Option<string>,
    parse: string -> Result<Option<map<string, Json>>, Exception>,
    send: ProducerRecord -> Result<RecordMetadata, Exception>,
    jvm: Platform,
    writable: Json -> bool)
    returns (sent: Option<ProducerRecord>, r: Json)
    ensures ParsesHeaders(headersJson) && parse(headersJson.value).Failure? ==>
              sent.None? && r == ErrorResponse(Failed("Failed to produce message: ", parse(headersJson.value).error), writable)
    ensures IsErrorEnvelope(r) ==> ParsesHeaders(headersJson) && parse(headersJson.value).Failure?
    ensures !ParsesHeaders(headersJson) ==> sent.Some? && sent.value.headers == []
    ensures ParsesHeaders(headersJson) && parse(headersJson.value) == Success(None) ==> sent.Some? && sent.value.headers == []
    ensures ParsesHeaders(headersJson) && parse(headersJson.value).Success? && parse(headersJson.value).value.Some? ==>
              var m := parse(headersJson.value).value.value;
              && (sent.Some? <==> AllStrings(m))
              && (sent.Some? ==> Encodes(m, sent.value.headers, jvm))
              && (!AllStrings(m) ==>
                    exists k :: k in m && !m[k].JString? && Serializes(r, ProduceResultJson(Rejected(topicName, ValueFault(m[k], jvm))), writable))
    ensures sent.Some? ==> sent.value.topic == topicName && sent.value.key == key && sent.value.value == message
    ensures sent.Some? && send(sent.value).Failure? ==>
              Serializes(r, ProduceResultJson(Rejected(topicName, send(sent.value).error)), writable)
    ensures sent.Some? && send(sent.value).Success? ==>
              Serializes(r, ProduceResultJson(Acknowledged(send(sent.value).value)), writable)
  {
    var headers: Option<map<string, Json>> := None;
    if ParsesHeaders(headersJson) {
      match parse(headersJson.value)
      case Failure(e) =>
        return None, ErrorResponse(Failed("Failed to produce message: ", e), writable);
      case Success(parsed) =>
        headers := parsed;
    }
    var result;
    sent, result := ProduceMessage(topicName, key, message, headers, send, jvm);
    r := ToJson(ProduceResultJson(result), writable);
    assert "topic" in ProduceResultJson(result).fields;
  }

  // ---------------------------------------------------------------------
  // consumeMessages and peekMessages
  // ---------------------------------------------------------------------

  /** The consume and peek answers: the topic, the messages and their number. */
  function MessagesWrapper(topicName: string, messages: seq<KafkaMessage>): (j: Json)
    ensures Counts(j, "messages", "messagesReturned")
    ensures Field(j, "topic") == Some(JString(topicName))
    ensures Field(j, "messages") == Some(MessagesJson(messages))
    ensures MessagesOf(Field(j, "messages").value) == Some(messages)
  {
    JObject(map["topic" := JString(topicName), "messagesReturned" := JNumber(|messages|), "messages" := MessagesJson(messages)])
  }

  /** `peekMessages` also echoes where it started. */
  function PeekWrapper(topicName: string, partition: int32, offset: int, messages: seq<KafkaMessage>): (j: Json)
    ensures Counts(j, "messages", "messagesReturned")
    ensures Field(j, "topic") == Some(JString(topicName))
    ensures Field(j, "partition") == Some(JNumber(partition)) && Field(j, "startOffset") == Some(JNumber(offset))
    ensures Field(j, "messages") == Some(MessagesJson(messages))
    ensures MessagesOf(Field(j, "messages").value) == Some(messages)
  {
    JObject(map[
      "topic" := JString(topicName),
      "partition" := JNumber(partition),
      "startOffset" := JNumber(offset),
      "messagesReturned" := JNumber(|messages|),
      "messages" := MessagesJson(messages)])
  }

  /** `consumeMessages`: the defaults decide the consumer's configuration
      (`base` is the admin configuration, `uuid` the random group suffix)
      and the loop's bound and deadline; the poll trace and the clock are
      the inputs of `Polling.ConsumeMessages`. */
  method ConsumeTool(
    topicName: string,
    maxMessages: Option<int32>,
    fromBeginning: Option<bool>,
    timeoutSeconds: Option<int32>,
    base: Props,
    uuid: string,
    session: ConsumerSession,
    start: int,
    ticks: seq<int>,
    jvm: Platform,
    writable: Json -> bool)
    returns (props: Props, r: Json)
    requires ClockReachesDeadline(start, ticks, ConsumeArgs(maxMessages, fromBeginning, timeoutSeconds).2)
    ensures GroupIdConfig in props && AutoOffsetResetConfig in props
    ensures props[AutoOffsetResetConfig] == Text(if fromBeginning == Some(false) then "latest" else "earliest")
    ensures props[GroupIdConfig] == Text(ConsumeGroupPrefix + uuid)
    ensures var (max, _, timeoutMs) := ConsumeArgs(maxMessages, fromBeginning, timeoutSeconds);
            var outcome := ConsumeOutcome(max, timeoutMs, session, start, ticks, jvm);
            && (outcome.Success? ==> |outcome.value| <= (if max < 0 then 0 else max))
            && (outcome.Success? ==> Serializes(r, MessagesWrapper(topicName, outcome.value), writable))
            && (outcome.Success? && writable(MessagesWrapper(topicName, outcome.value)) ==>
                  && Field(r, "messagesReturned") == Some(JNumber(|outcome.value|))
                  && Field(r, "messages").Some? && MessagesOf(Field(r, "messages").value) == Some(outcome.value))
            && (outcome.Failure? ==> r == ErrorResponse(Failed("Failed to consume messages: ", outcome.error), writable))
  {
    var (max, fromStart, timeoutMs) := ConsumeArgs(maxMessages, fromBeginning, timeoutSeconds);
    props := ConsumeProps(base, uuid, fromStart);
    var outcome := Polling.ConsumeMessages(max, timeoutMs, session, start, ticks, jvm);
    match outcome
    case Success(messages) =>
      ConsumeDelivers(max, timeoutMs, session, start, ticks, jvm);
      r := ToJson(MessagesWrapper(topicName, messages), writable);
    case Failure(e) =>
      r := ErrorResponse(Failed("Failed to consume messages: ", e), writable);
  }

  /** `peekMessages`: the count defaults to five; partition and offset are
      echoed as given. */
  method PeekTool(
    topicName: string,
    partition: int32,
    offset: int,
    count: Option<int32>,
    base: Props,
    uuid: string,
    session: ConsumerSession,
    jvm: Platform,
    writable: Json -> bool)
    returns (props: Props, r: Json)
    ensures AutoOffsetResetConfig in props <==> AutoOffsetResetConfig in base
    ensures GroupIdConfig in props && props[GroupIdConfig] == Text(PeekGroupPrefix + uuid)
    ensures var outcome := PeekOutcome(PeekCount(count), session, jvm);
            && (outcome.Success? ==> |outcome.value| <= (if PeekCount(count) < 0 then 0 else PeekCount(count)))
            && (outcome.Success? ==> Serializes(r, PeekWrapper(topicName, partition, offset, outcome.value), writable))
            && (outcome.Success? && writable(PeekWrapper(topicName, partition, offset, outcome.value)) ==>
                  && Field(r, "partition") == Some(JNumber(partition))
                  && Field(r, "startOffset") == Some(JNumber(offset))
                  && Field(r, "messagesReturned") == Some(JNumber(|outcome.value|))
                  && Field(r, "messages").Some? && MessagesOf(Field(r, "messages").value) == Some(outcome.value))
            && (outcome.Failure? ==> r == ErrorResponse(Failed("Failed to peek messages: ", outcome.error), writable))
  {
    var n := PeekCount(count);
    props := PeekProps(base, uuid);
    var outcome := Polling.PeekMessages(n, session, jvm);
    match outcome
    case Success(messages) =>
      PeekDelivers(n, session, jvm);
      r := ToJson(PeekWrapper(topicName, partition, offset, messages), writable);
    case Failure(e) =>
      r := ErrorResponse(Failed("Failed to peek messages: ", e), writable);
  }

  // ---------------------------------------------------------------------
  // Consumer groups and the cluster
  // ---------------------------------------------------------------------

  /** `describeConsumerGroup`: `info` is the service's answer, read back
      whole from the tool's answer when Jackson can write it. */
  method DescribeConsumerGroupTool(groupId: string, description: Result<GroupDescription, Exception>, writable: Json -> bool)
    returns (info: Result<ConsumerGroupInfo, Exception>, r: Json)
    ensures description.Success? ==> info.Success? && DescribesGroup(description.value, info.value)
    ensures info.Success? ==> Serializes(r, GroupInfoJson(info.value), writable)
    ensures info.Success? && writable(GroupInfoJson(info.value)) ==> GroupInfoOf(r) == Some(info.value)
    ensures description.Failure? ==>
              && info == Failure(description.error)
              && r == ErrorResponse(Failed("Failed to describe consumer group '" + groupId + "': ", description.error), writable)
  {
    info := DescribeConsumerGroup(description);
    match info
    case Success(g) => r := ToJson(GroupInfoJson(g), writable);
    case Failure(e) => r := ErrorResponse(Failed("Failed to describe consumer group '" + groupId + "': ", e), writable);
  }

  /** `describeCluster`'s envelope; the service's copying of broker nodes is
      not modelled, its answer is the input. */
  function DescribeClusterTool(cluster: Result<ClusterInfo, Exception>, writable: Json -> bool): (r: Json)
    ensures cluster.Success? ==> Serializes(r, ClusterInfoJson(cluster.value), writable)
    ensures cluster.Success? && writable(ClusterInfoJson(cluster.value)) ==> ClusterInfoOf(r) == Some(cluster.value)
    ensures cluster.Failure? ==> r == ErrorResponse(Failed("Failed to describe cluster: ", cluster.error), writable)
  {
    match cluster
    case Success(c) => ToJson(ClusterInfoJson(c), writable)
    case Failure(e) => ErrorResponse(Failed("Failed to describe cluster: ", e), writable)
  }
}
