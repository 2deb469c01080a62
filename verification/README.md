# kafka-mcp-server: a Dafny model of the broker gateway, the tool surface and the status filter

This project models the deterministic core of a Spring AI MCP server that
exposes a Kafka cluster as tools. It has three parts.

* **The broker gateway** is `KafkaService`. The model covers:
  * the bounded poll loops of `consumeMessages` and `peekMessages`, with the clock and the poll results as inputs;
  * header conversion in both directions;
  * the flattening of a topic description, including the non-default configuration map built by `Collectors.toMap`;
  * the grouping of a consumer group member's assignment by topic, and the "host:port" coordinator;
  * the `ProduceResult` that `produceMessage` builds instead of throwing;
  * the configuration of the short-lived consumers;
  * the messages `createTopic` and `deleteTopic` return.
* **The tool surface** is `KafkaToolProvider`. The model covers:
  * the defaults filled in for `null` arguments;
  * the narrowing of the replication factor to `short`;
  * the rule that blank headers text is not parsed;
  * the list and message wrappers, whose count equals their list's length;
  * the `{success: false, error: ...}` envelope for any exception;
  * the fixed `{error: "Failed to serialize response"}` answer when serialization fails.
* **The status filter** is `McpMessageStatusFilter`. On `POST /mcp/message` it turns `setStatus(200)` into `setStatus(202)`.

The model replaces these with inputs:

* **Broker calls** become the answer the call yields, or the exception its `get()` throws. The consumers are a `ConsumerSession`: an optional set-up fault plus the sequence of poll results, where polls past the end return empty batches.
* **The wall clock** becomes a reading at the start and one reading per test of the consume loop.
* **The random UUID** becomes a string parameter.
* **Platform behaviour** becomes the uninterpreted `Jvm.Platform` value: UTF-8 coding and the exceptions the JVM raises.
* **Jackson** becomes two things:
  * JSON is the `JsonValue.Json` datatype, and objects are maps because their field order is unspecified.
  * Whether a value can be written is the `writable` oracle, and reading the headers text is the `parse` oracle.

The modules follow the program: `Headers`, `Polling`, `ConsumerProps`, `Topics`, `Groups` and `Produce` for the service; `DtoJson` and `Tools` for the tool surface; `StatusFilter` for the filter. `Wrappers`, `JsonValue`, `Jvm`, `Text` and `Dto` hold the shared types: the result types, Java's integer widths and string rendering, and the DTO records.

## Model

Paths are relative to the repository root. `KafkaService.java`, `KafkaToolProvider.java` and `McpMessageStatusFilter.java` live under `src/main/java/com/elzakaria/kafkamcpsbai/` in `service/`, `tool/` and `filter/` respectively.

| member | source | states |
|---|---|---|
| Jvm.ShortValue | src/main/java/com/elzakaria/kafkamcpsbai/tool/KafkaToolProvider.java:57 | `Integer.shortValue()` gives the `int16` congruent to the argument modulo 2^16, and leaves values already in the `short` range alone |
| Jvm.ShortValueUnique | src/main/java/com/elzakaria/kafkamcpsbai/tool/KafkaToolProvider.java:57 | that congruence determines the narrowed value uniquely, so the contract of `ShortValue` is a full specification |
| Text.DecimalRoundTrip | src/main/java/com/elzakaria/kafkamcpsbai/service/KafkaService.java:87-88 | the decimal rendering of an integer in string concatenation parses back to the same integer |
| Text.SplitAtLastConcat | src/main/java/com/elzakaria/kafkamcpsbai/service/KafkaService.java:264 | cutting `a + c + b` at its last `c` gives back `a` and `b` whenever `b` holds no `c` |
| Headers.DecodeHeaders | src/main/java/com/elzakaria/kafkamcpsbai/service/KafkaService.java:152-155 | decoding a record's headers succeeds exactly when no header value is `null`; otherwise it fails with the `NullPointerException` of `new String(null, UTF_8)` |
| Headers.DecodeHeadersContents | src/main/java/com/elzakaria/kafkamcpsbai/service/KafkaService.java:197-200 | the decoded map's keys are exactly the record's header keys, and a repeated key holds the value of its last occurrence |
| Headers.EncodeHeaders | src/main/java/com/elzakaria/kafkamcpsbai/service/KafkaService.java:103-106 | a `null` map adds no headers; otherwise it adds one header per map entry with the value's UTF-8 bytes, with distinct keys covering the map, or throws the exception of the first non-string value |
| Headers.EncodedValuesAreStrings | src/main/java/com/elzakaria/kafkamcpsbai/service/KafkaService.java:104-105 | every map that encodes successfully holds only string values, and every header it yields carries bytes |
| Headers.HeadersRoundTrip | src/main/java/com/elzakaria/kafkamcpsbai/service/KafkaService.java:103-106 | headers added on produce decode on consume to the original string map, whenever UTF-8 decoding inverts encoding |
| Polling.ToMessage | src/main/java/com/elzakaria/kafkamcpsbai/service/KafkaService.java:157-165 | a record becomes a message exactly when its headers decode; otherwise the result is the `NullPointerException` |
| Polling.ToMessagesSucceeds | src/main/java/com/elzakaria/kafkamcpsbai/service/KafkaService.java:149-166 | converting a run of records succeeds exactly when none of them has a `null` header value |
| Polling.ToMessagesElements | src/main/java/com/elzakaria/kafkamcpsbai/service/KafkaService.java:149-166 | message `i` of a successful conversion is built from record `i`, so order is kept and nothing is skipped |
| Polling.AppendUpTo | src/main/java/com/elzakaria/kafkamcpsbai/service/KafkaService.java:149-166 | the inner `for` loop ends holding the conversion of the first `limit` records polled so far, or that conversion's failure |
| Polling.ConsumeStop | src/main/java/com/elzakaria/kafkamcpsbai/service/KafkaService.java:146-147 | the consume loop stops at a poll within the clock trace where it does not go on |
| Polling.ConsumeStopPast | src/main/java/com/elzakaria/kafkamcpsbai/service/KafkaService.java:146-147 | before the stopping poll, every loop test found fewer than `maxMessages` records, a reading before the deadline, and a poll that did not throw |
| Polling.ConsumeStopsAt | src/main/java/com/elzakaria/kafkamcpsbai/service/KafkaService.java:146-147 | the first poll at which the loop does not go on is the stopping poll |
| Polling.ConsumeLoop | src/main/java/com/elzakaria/kafkamcpsbai/service/KafkaService.java:144-167 | the `while` loop yields exactly the result settled at the stopping poll |
| Polling.ConsumeMessages | src/main/java/com/elzakaria/kafkamcpsbai/service/KafkaService.java:139-171 | `consumeMessages` returns or throws exactly the outcome of the reference definition: the set-up fault, the conversion of the first `maxMessages` records polled, the conversion failure, or the exception of the stopping poll |
| Polling.ConsumeDelivers | src/main/java/com/elzakaria/kafkamcpsbai/service/KafkaService.java:146-166 | a successful consume returns at most `maxMessages` messages, converted in order from the records polled. Every poll it made came before the deadline with fewer than `maxMessages` held, and it stopped at the limit or the deadline |
| Polling.ConsumeFailures | src/main/java/com/elzakaria/kafkamcpsbai/service/KafkaService.java:141-167 | a failing consume fails only with the set-up fault, the `NullPointerException` of a `null` header value, or the exception of one of its polls |
| Polling.ConsumeNothing | src/main/java/com/elzakaria/kafkamcpsbai/service/KafkaService.java:146 | a non-positive `maxMessages`, or a deadline already passed at the first test, returns an empty list |
| Polling.PeekStop | src/main/java/com/elzakaria/kafkamcpsbai/service/KafkaService.java:190-192 | the peek loop stops at a poll where it does not go on: `count` records held, an empty batch, or a thrown poll |
| Polling.PeekStopPast | src/main/java/com/elzakaria/kafkamcpsbai/service/KafkaService.java:190-192 | every poll before the stopping one returned a non-empty batch |
| Polling.PeekStopsAt | src/main/java/com/elzakaria/kafkamcpsbai/service/KafkaService.java:190-192 | the first poll at which the loop does not go on is the stopping poll |
| Polling.PeekLoop | src/main/java/com/elzakaria/kafkamcpsbai/service/KafkaService.java:190-212 | the `while` loop, with its `break` on an empty poll, yields exactly the result settled at the stopping poll |
| Polling.PeekMessages | src/main/java/com/elzakaria/kafkamcpsbai/service/KafkaService.java:183-215 | `peekMessages` returns or throws exactly the outcome of the reference definition |
| Polling.PeekDelivers | src/main/java/com/elzakaria/kafkamcpsbai/service/KafkaService.java:190-211 | a successful peek returns at most `count` messages, converted in order from the records of the non-empty polls before it stopped, and it stopped at `count` or at the first empty poll |
| Polling.PeekFailures | src/main/java/com/elzakaria/kafkamcpsbai/service/KafkaService.java:186-211 | a failing peek fails only with the set-up fault, the `NullPointerException` of a `null` header value, or the exception of one of its polls |
| Polling.PeekNothing | src/main/java/com/elzakaria/kafkamcpsbai/service/KafkaService.java:190-192 | a non-positive `count`, or an empty first poll, returns an empty list |
| ConsumerProps.ConsumeProps | src/main/java/com/elzakaria/kafkamcpsbai/service/KafkaService.java:129-137 | the consume configuration is the admin configuration with these set: the `kafka-mcp-consumer-` group id, auto-commit off, string deserializers, and `earliest`/`latest` by `fromBeginning`. Every other admin entry is kept |
| ConsumerProps.PeekProps | src/main/java/com/elzakaria/kafkamcpsbai/service/KafkaService.java:174-181 | the peek configuration sets the `kafka-mcp-peek-` group id, auto-commit off and string deserializers. It sets no `auto.offset.reset`, so that entry is present only if the admin configuration has one |
| ConsumerProps.GroupIdsAreDisjoint | src/main/java/com/elzakaria/kafkamcpsbai/service/KafkaService.java:131 | a consume group id is never a peek group id, and distinct UUIDs give distinct group ids |
| Topics.NodeIds | src/main/java/com/elzakaria/kafkamcpsbai/service/KafkaService.java:68-69 | the id list has one id per node, in node order |
| Topics.FlattenPartition | src/main/java/com/elzakaria/kafkamcpsbai/service/KafkaService.java:64-71 | a partition keeps its number; its leader is the leader node's id, or -1 without a leader; replicas and in-sync replicas become id lists in broker order |
| Topics.NonDefault | src/main/java/com/elzakaria/kafkamcpsbai/service/KafkaService.java:61 | the kept entries are exactly the non-default ones |
| Topics.ToConfigMapSucceeds | src/main/java/com/elzakaria/kafkamcpsbai/service/KafkaService.java:60-62 | `Collectors.toMap` builds the map exactly when every kept entry has a value and no name repeats |
| Topics.ToConfigMapContents | src/main/java/com/elzakaria/kafkamcpsbai/service/KafkaService.java:60-62 | a built map's keys are exactly the kept names, and each kept entry's value is stored under its name |
| Topics.ToConfigMapFails | src/main/java/com/elzakaria/kafkamcpsbai/service/KafkaService.java:62 | a failed collection is the message-less `NullPointerException` of some `null` value, or the duplicate-key exception naming a repeated name, the stored value and the arriving one |
| Topics.DescribeTopic | src/main/java/com/elzakaria/kafkamcpsbai/service/KafkaService.java:45-80 | a failure of either admin call propagates; on success the name is the description's, `partitionCount` equals the number of partitions, and partition `i` is the flattening of the description's partition `i` |
| Topics.DescribeTopicConfigs | src/main/java/com/elzakaria/kafkamcpsbai/service/KafkaService.java:60-62 | on fetched inputs the call succeeds exactly when the non-default entries have values and distinct names; `configs` then holds exactly the non-default entries' names, each with its value |
| Topics.CreatedRoundTrip | src/main/java/com/elzakaria/kafkamcpsbai/service/KafkaService.java:87-88 | the creation message reads back as the topic name, partition count and replication factor, whatever the name holds |
| Topics.DeletedRoundTrip | src/main/java/com/elzakaria/kafkamcpsbai/service/KafkaService.java:95 | the deletion message reads back as the topic name |
| Topics.CreatedIsNotDeleted | src/main/java/com/elzakaria/kafkamcpsbai/service/KafkaService.java:87-95 | no creation message equals a deletion message |
| Topics.CreateTopic | src/main/java/com/elzakaria/kafkamcpsbai/service/KafkaService.java:82-90 | the call succeeds exactly when the broker accepts; a refusal is rethrown; the message names the topic, partitions and replication factor |
| Topics.DeleteTopic | src/main/java/com/elzakaria/kafkamcpsbai/service/KafkaService.java:92-97 | the call succeeds exactly when the broker accepts; a refusal is rethrown; the message names the topic |
| Groups.PartitionsOfMembers | src/main/java/com/elzakaria/kafkamcpsbai/service/KafkaService.java:238-241 | a partition is listed for a topic exactly when that (topic, partition) pair is assigned |
| Groups.GroupByTopicIsFilter | src/main/java/com/elzakaria/kafkamcpsbai/service/KafkaService.java:237-241 | the `computeIfAbsent` grouping has one list per assigned topic, each list being that topic's partitions in assignment order |
| Groups.AssignsExactlyPairs | src/main/java/com/elzakaria/kafkamcpsbai/service/KafkaService.java:237-249 | the (topic, partition) pairs across a member's assignment entries are exactly the member's assigned pairs |
| Groups.Entries | src/main/java/com/elzakaria/kafkamcpsbai/service/KafkaService.java:243-249 | the entry list has one entry per map key with that key's list, and no topic twice |
| Groups.DescribeMember | src/main/java/com/elzakaria/kafkamcpsbai/service/KafkaService.java:235-257 | a member keeps its consumer id, client id and host. Its entries cover each assigned topic once, each listing exactly that topic's partitions in assignment order |
| Groups.Coordinator | src/main/java/com/elzakaria/kafkamcpsbai/service/KafkaService.java:263-264 | the coordinator is present exactly when the description has one; it is exactly the host, a colon and the port in decimal, and it reads back, cut at its last colon, as the node's host and port |
| Groups.DescribeConsumerGroup | src/main/java/com/elzakaria/kafkamcpsbai/service/KafkaService.java:228-269 | a failure propagates; on success the answer describes the group: its id, state and assignor copied, the coordinator rendered, and members in description order, each with its ids and host copied and its assignment grouped exactly |
| Produce.ProduceMessage | src/main/java/com/elzakaria/kafkamcpsbai/service/KafkaService.java:99-125 | never throws. A record goes to the producer exactly when the headers are `null` or all strings, carrying the topic, key, value and the encoded headers. An acknowledged send gives `success` true with the metadata's topic, partition, offset and timestamp. Any exception gives `success` false, the requested topic, the exception's possibly `null` message, and 0 for partition, offset and timestamp |
| DtoJson.ProduceResultJson | src/main/java/com/elzakaria/kafkamcpsbai/dto/ProduceResult.java:8-15 | the serialized `ProduceResult` reads back as the same result, `success` field included |
| DtoJson.KafkaMessageJson | src/main/java/com/elzakaria/kafkamcpsbai/dto/KafkaMessage.java:10-18 | the serialized message reads back as the same message, `null` key and value included |
| DtoJson.MessagesJson | src/main/java/com/elzakaria/kafkamcpsbai/dto/KafkaMessage.java:10-18 | the messages array has one element per message, each reading back as that message, and the whole array reads back as the same list in the same order |
| DtoJson.PartitionInfoJson | src/main/java/com/elzakaria/kafkamcpsbai/dto/TopicInfo.java:19-24 | the serialized partition reads back as the same partition |
| DtoJson.TopicInfoJson | src/main/java/com/elzakaria/kafkamcpsbai/dto/TopicInfo.java:11-15 | the serialized topic reads back whole: name, partition count, every partition in order, and the configs as the same map |
| DtoJson.AssignmentJson | src/main/java/com/elzakaria/kafkamcpsbai/dto/ConsumerGroupInfo.java:28-31 | an assignment entry reads back as the same topic and the same partition list |
| DtoJson.MemberInfoJson | src/main/java/com/elzakaria/kafkamcpsbai/dto/ConsumerGroupInfo.java:19-24 | a serialized member reads back whole: member id, client id, host and its assignment entries in order |
| DtoJson.GroupInfoJson | src/main/java/com/elzakaria/kafkamcpsbai/dto/ConsumerGroupInfo.java:10-15 | a serialized group reads back whole: group id, state, the nullable coordinator, the assignor and its members in order |
| DtoJson.BrokerInfoJson | src/main/java/com/elzakaria/kafkamcpsbai/dto/ClusterInfo.java:17-22 | a serialized broker reads back whole: id, host, port and the nullable rack |
| DtoJson.ClusterInfoJson | src/main/java/com/elzakaria/kafkamcpsbai/dto/ClusterInfo.java:10-14 | a serialized cluster reads back whole: cluster id, the controller and every broker in order |
| Tools.ToJson | src/main/java/com/elzakaria/kafkamcpsbai/tool/KafkaToolProvider.java:189-195 | the answer is the value itself exactly when Jackson can write it, and the fixed serialization-failure object otherwise |
| Tools.ErrorResponse | src/main/java/com/elzakaria/kafkamcpsbai/tool/KafkaToolProvider.java:197-199 | the error answer always has an `error` text: the message, or the serialization-failure text. Its `success`, when present, is `false` |
| Tools.ErrorResponseIsReadable | src/main/java/com/elzakaria/kafkamcpsbai/tool/KafkaToolProvider.java:197-199 | a writable envelope has exactly the fields `success: false` and `error`; the serialization-failure answer has no `success` field |
| Tools.FailedRoundTrip | src/main/java/com/elzakaria/kafkamcpsbai/tool/KafkaToolProvider.java:34 | after the tool's prefix, a failure message holds the exception's message, or "null" when it has none |
| Tools.CreateTopicArgs | src/main/java/com/elzakaria/kafkamcpsbai/tool/KafkaToolProvider.java:56-57 | partitions and replication factor default to 1. A given replication factor is narrowed modulo 2^16, and it is kept when it lies in 1..32767 |
| Tools.ReplicationFactorWraps | src/main/java/com/elzakaria/kafkamcpsbai/tool/KafkaToolProvider.java:57 | the narrowing wraps and does not reject: 65537 becomes 1, and 32768 becomes -32768 |
| Tools.ConsumeArgs | src/main/java/com/elzakaria/kafkamcpsbai/tool/KafkaToolProvider.java:108-113 | ten messages, from the beginning, and ten seconds when not given; given arguments pass through; the timeout reaches the service in milliseconds |
| Tools.PeekCount | src/main/java/com/elzakaria/kafkamcpsbai/tool/KafkaToolProvider.java:133 | five messages when not given; a given count passes through |
| Tools.ListWrapper | src/main/java/com/elzakaria/kafkamcpsbai/tool/KafkaToolProvider.java:31 | the list answer carries the names, and `count` equals the length of its array |
| Tools.ListTopicsTool | src/main/java/com/elzakaria/kafkamcpsbai/tool/KafkaToolProvider.java:27-36 | a listed answer is the topics wrapper when it can be written, and the fixed serialization-failure object otherwise; written, it carries the topics and their count. A failure becomes the envelope with "Failed to list topics: " and the exception's message |
| Tools.ListConsumerGroupsTool | src/main/java/com/elzakaria/kafkamcpsbai/tool/KafkaToolProvider.java:151-160 | a listed answer is the group-ids wrapper when it can be written, and the fixed serialization-failure object otherwise; written, it carries the group ids and their count. A failure becomes the envelope with its prefix |
| Tools.DescribeTopicTool | src/main/java/com/elzakaria/kafkamcpsbai/tool/KafkaToolProvider.java:38-48 | a described topic is answered with its serialization, which reads back as the service's `TopicInfo` whole, or with the fixed serialization-failure object when it cannot be written; a failure becomes the envelope naming the topic |
| Tools.CreateTopicTool | src/main/java/com/elzakaria/kafkamcpsbai/tool/KafkaToolProvider.java:50-64 | an accepted creation answers `{success: true, message}` when it can be written, and the fixed serialization-failure object otherwise; the message reads back as the topic, the defaulted partitions and the narrowed replication factor. A refusal becomes the envelope naming the topic |
| Tools.DeleteTopicTool | src/main/java/com/elzakaria/kafkamcpsbai/tool/KafkaToolProvider.java:66-76 | an accepted deletion answers `{success: true, message}` when it can be written, and the fixed serialization-failure object otherwise; the message reads back as the topic. A refusal becomes the envelope naming the topic |
| Tools.ProduceTool | src/main/java/com/elzakaria/kafkamcpsbai/tool/KafkaToolProvider.java:80-97 | absent or blank headers text is not parsed, and the record goes out with no headers, as it does for a parsed JSON `null`. A parsed map sends a record exactly when all its values are strings, carrying exactly the encoded map. A parse failure becomes the envelope with the produce prefix, and it is the only way to get the envelope. A non-string header value and a failed send both come back as the serialized `ProduceResult` with `success` false; an acknowledged send comes back as the acknowledged result |
| Tools.MessagesWrapper | src/main/java/com/elzakaria/kafkamcpsbai/tool/KafkaToolProvider.java:115-119 | beside the topic, the `messages` array reads back as exactly the messages, in order, and `messagesReturned` equals its length |
| Tools.PeekWrapper | src/main/java/com/elzakaria/kafkamcpsbai/tool/KafkaToolProvider.java:136-142 | the partition and start offset are echoed, the `messages` array reads back as exactly the messages, in order, and `messagesReturned` equals its length |
| Tools.ConsumeTool | src/main/java/com/elzakaria/kafkamcpsbai/tool/KafkaToolProvider.java:101-124 | the consumer configuration follows the defaulted arguments. A successful consume is answered with the messages wrapper when it can be written, and the fixed serialization-failure object otherwise; written, its `messages` read back as exactly the consumed messages and `messagesReturned` is their number, at most the defaulted maximum. A failure becomes the envelope with the consume prefix |
| Tools.PeekTool | src/main/java/com/elzakaria/kafkamcpsbai/tool/KafkaToolProvider.java:126-147 | the peek configuration sets no offset-reset policy of its own. A successful peek is answered with the peek wrapper when it can be written, and the fixed serialization-failure object otherwise; written, it echoes partition and start offset, its `messages` read back as exactly the peeked messages and `messagesReturned` is their number, at most the defaulted count. A failure becomes the envelope with the peek prefix |
| Tools.DescribeConsumerGroupTool | src/main/java/com/elzakaria/kafkamcpsbai/tool/KafkaToolProvider.java:162-172 | the service's answer describes the group, and the tool answers with its serialization, which reads back as that answer whole, or with the fixed serialization-failure object when it cannot be written; a failure becomes the envelope naming the group |
| Tools.DescribeClusterTool | src/main/java/com/elzakaria/kafkamcpsbai/tool/KafkaToolProvider.java:176-185 | the answer is the cluster's serialization, which reads back as the service's `ClusterInfo` whole, or the fixed serialization-failure object when it cannot be written; a failure becomes the envelope with its prefix |
| StatusFilter.Rewrite | src/main/java/com/elzakaria/kafkamcpsbai/filter/McpMessageStatusFilter.java:24-26 | the overriding `setStatus` never passes 200 on and changes no other code; `sendError` is not overridden |
| StatusFilter.DoFilter | src/main/java/com/elzakaria/kafkamcpsbai/filter/McpMessageStatusFilter.java:18-31 | the request is forwarded unchanged. Off the endpoint every status call reaches the response as made; on it, each call is rewritten. The single chain invocation is how the run is built, not a derived property |
| StatusFilter.EndpointAnswersAccepted | src/main/java/com/elzakaria/kafkamcpsbai/filter/McpMessageStatusFilter.java:21-25 | on `POST /mcp/message` no `setStatus(200)` reaches the response: each becomes 202, and every other call passes unchanged |
| StatusFilter.RewriteIdempotent | src/main/java/com/elzakaria/kafkamcpsbai/filter/McpMessageStatusFilter.java:25 | filtering what the filter let through changes nothing more |
| StatusFilter.MatchIsExact | src/main/java/com/elzakaria/kafkamcpsbai/filter/McpMessageStatusFilter.java:21 | the endpoint test is exact and case-sensitive on method and path: `post`, `GET` or a trailing slash miss it, while `POST /mcp/message?sessionId=...` hits it, since `getRequestURI()` excludes the query string |
| StatusFilter.QueryIsIgnored | src/main/java/com/elzakaria/kafkamcpsbai/filter/McpMessageStatusFilter.java:21 | whether a request is rewritten, and what reaches the response, never depends on its query string |

Where the design description of the system and the code disagree, the model follows the code:

* A new admin client is created for every call; there is no shared client (`KafkaService.java:35-37`).
* `peekMessages` sets no `auto.offset.reset` (`KafkaService.java:174-181`).
* On a failed send, `errorMessage` is the exception's message, which may be `null`, so it is not "present exactly when `success` is false" (`KafkaService.java:117-123`).
* `describeCluster` has no check for a missing controller (`KafkaService.java:276-284`).

## Left out

- Broker I/O (`AdminClient`, `KafkaTemplate`, `KafkaConsumer` construction, `subscribe`, `assign`, `seek`, `poll`) is replaced by the answers it yields or the exceptions it throws, taken as inputs. Poll timeouts (100 ms, 5 s) are not modelled.
- The wall clock (`System.currentTimeMillis`) is a start reading plus a trace of readings, one per loop test.
- Polling.ConsumeMessages: requires the clock trace to reach the deadline. A real clock always does, but a finite trace has to be told so.
- `UUID.randomUUID()` is a string parameter, and the model fixes only the group-id prefix.
- UTF-8 encoding and decoding are uninterpreted functions of `Jvm.Platform`. The round trip of headers is proved only under the premise that decoding inverts encoding.
- Jackson is two oracles: `writable` for whether a value can be written, and `parse` for reading the headers text. The model's JSON is a value, not pretty-printed text.
- Headers.EncodeHeaders: Jackson hands over a `LinkedHashMap` in the order of the headers text, but the model's JSON objects carry no field order, so any order that lists each entry once is allowed. The contract fixes the headers' set and values but not their order.
- Groups.Entries: the order of the assignment entries is the `HashMap`'s iteration order, which the model leaves open in the same way.
- `describeCluster` (`KafkaService.java:271-301`) is a field-by-field copy of broker nodes. Its result is an input of Tools.DescribeClusterTool, and the tool's answer is modelled from it.
- `listTopics` and `listConsumerGroups` in the service return what the admin client lists. Their results are the inputs of the list tools.
- `null` topic names or group ids, and the `NullPointerException` that `Map.of` raises for a `null` value, are not modelled. Names are plain strings.
- Exceptions thrown while closing a consumer or an admin client are not modelled.
- Spring wiring, `@Tool`/`@ToolParam` annotations and logging are not modelled, and `KafkaMcpSbaiApplication.java` is not part of this model.
- Thread safety and concurrent tool calls are not modelled.
- The servlet container's handling of `sendError` and of statuses set other than through `setStatus` is not modelled. The filter's model only records which calls reach the container's response.
