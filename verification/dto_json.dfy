/** The JSON objects Jackson writes for the result shapes: one field per
    bean property under the property's name, `null` fields included, lists
    as arrays and maps as objects.  Each encoder is paired with a reader
    and promises that the reader recovers the value. */
module DtoJson {

  import opened Wrappers
  import opened JsonValue
  import opened Dto

  // ---------------------------------------------------------------------
  // Readers for the field kinds
  // ---------------------------------------------------------------------

  function NumberOf(j: Json): Option<int> {
    if j.JNumber? then Some(j.n) else None
  }

  /** A nullable string: `Some(None)` for JSON `null`. */
  function NullableStringOf(j: Json): Option<Option<string>> {
    match j
    case JNull => Some(None)
    case JString(s) => Some(Some(s))
    case _ => None
  }

  /** A `Map<String, String>`: an object whose values are all strings. */
  function StringMapOf(j: Json): Option<map<string, string>> {
    if j.JObject? && forall k :: k in j.fields ==> j.fields[k].JString? then
      Some(map k | k in j.fields :: j.fields[k].s)
    else None
  }

  /** A JSON array every element of which `read` accepts: the values
      read, in order. */
  function ArrayOf<T>(j: Json, read: Json -> Option<T>): Option<seq<T>> {
    if j.JArray? && forall i :: 0 <= i < |j.items| ==> read(j.items[i]).Some? then
      Some(seq(|j.items|, i requires 0 <= i < |j.items| && read(j.items[i]).Some? => read(j.items[i]).value))
    else None
  }

  /** A `List<Integer>`: an array of numbers. */
  function IntArrayOf(j: Json): Option<seq<int>> {
    ArrayOf(j, NumberOf)
  }

  /** The field `k` of an object, if it is there. */
  function Field(j: Json, k: string): Option<Json> {
    if j.JObject? && k in j.fields then Some(j.fields[k]) else None
  }

  lemma StringMapRoundTrip(m: map<string, string>)
    ensures StringMapOf(StringMap(m)) == Some(m)
  {
    var j := StringMap(m);
    assert (map k | k in j.fields :: j.fields[k].s) == m;
  }

  /** An array whose elements read back one by one reads back as a whole. */
  lemma ReadArray<T>(j: Json, xs: seq<T>, read: Json -> Option<T>)
    requires j.JArray? && |j.items| == |xs|
    requires forall i :: 0 <= i < |xs| ==> read(j.items[i]) == Some(xs[i])
    ensures ArrayOf(j, read) == Some(xs)
  {
    assert seq(|j.items|, i requires 0 <= i < |j.items| && read(j.items[i]).Some? => read(j.items[i]).value) == xs;
  }

  lemma IntArrayRoundTrip(xs: seq<int>)
    ensures IntArrayOf(IntArray(xs)) == Some(xs)
  {
    ReadArray(IntArray(xs), xs, NumberOf);
  }

  // ---------------------------------------------------------------------
  // ProduceResult
  // ---------------------------------------------------------------------

  function ProduceResultJson(p: ProduceResult): (j: Json)
    ensures ProduceResultOf(j) == Some(p)
    ensures Field(j, "success") == Some(JBool(p.success))
  {
    JObject(map[
      "topic" := JString(p.topic),
      "partition" := JNumber(p.partition),
      "offset" := JNumber(p.offset),
      "timestamp" := JNumber(p.timestamp),
      "success" := JBool(p.success),
      "errorMessage" := NullableString(p.errorMessage)])
  }

  function ProduceResultOf(j: Json): Option<ProduceResult> {
    match (Field(j, "topic"), Field(j, "partition"), Field(j, "offset"), Field(j, "timestamp"), Field(j, "success"), Field(j, "errorMessage"))
    case (Some(JString(t)), Some(JNumber(p)), Some(JNumber(o)), Some(JNumber(ts)), Some(JBool(ok)), Some(e)) =>
      (match NullableStringOf(e)
       case Some(err) => Some(ProduceResult(t, p, o, ts, ok, err))
       case None => None)
    case _ => None
  }

  // ---------------------------------------------------------------------
  // KafkaMessage
  // ---------------------------------------------------------------------

  function KafkaMessageJson(m: KafkaMessage): (j: Json)
    ensures KafkaMessageOf(j) == Some(m)
  {
    StringMapRoundTrip(m.headers);
    JObject(map[
      "topic" := JString(m.topic),
      "partition" := JNumber(m.partition),
      "offset" := JNumber(m.offset),
      "key" := NullableString(m.key),
      "value" := NullableString(m.value),
      "timestamp" := JNumber(m.timestamp),
      "headers" := StringMap(m.headers)])
  }

  function KafkaMessageOf(j: Json): Option<KafkaMessage> {
    match (Field(j, "topic"), Field(j, "partition"), Field(j, "offset"), Field(j, "key"), Field(j, "value"), Field(j, "timestamp"), Field(j, "headers"))
    case (Some(JString(t)), Some(JNumber(p)), Some(JNumber(o)), Some(k), Some(v), Some(JNumber(ts)), Some(h)) =>
      (match (NullableStringOf(k), NullableStringOf(v), StringMapOf(h))
       case (Some(key), Some(value), Some(headers)) => Some(KafkaMessage(t, p, o, key, value, ts, headers))
       case _ => None)
    case _ => None
  }

  /** The `messages` array of the consume and peek responses. */
  function MessagesJson(ms: seq<KafkaMessage>): (j: Json)
    ensures j.JArray? && |j.items| == |ms|
    ensures forall i :: 0 <= i < |ms| ==> KafkaMessageOf(j.items[i]) == Some(ms[i])
    ensures MessagesOf(j) == Some(ms)
  {
    var j := JArray(seq(|ms|, i requires 0 <= i < |ms| => KafkaMessageJson(ms[i])));
    ReadArray(j, ms, KafkaMessageOf);
    j
  }

  function MessagesOf(j: Json): Option<seq<KafkaMessage>> {
    ArrayOf(j, KafkaMessageOf)
  }

  // ---------------------------------------------------------------------
  // TopicInfo
  // ---------------------------------------------------------------------

  function PartitionInfoJson(p: PartitionInfo): (j: Json)
    ensures PartitionInfoOf(j) == Some(p)
  {
    IntArrayRoundTrip(p.replicas);
    IntArrayRoundTrip(p.inSyncReplicas);
    JObject(map[
      "partition" := JNumber(p.partition),
      "leader" := JNumber(p.leader),
      "replicas" := IntArray(p.replicas),
      "inSyncReplicas" := IntArray(p.inSyncReplicas)])
  }

  function PartitionInfoOf(j: Json): Option<PartitionInfo> {
    match (Field(j, "partition"), Field(j, "leader"), Field(j, "replicas"), Field(j, "inSyncReplicas"))
    case (Some(JNumber(p)), Some(JNumber(l)), Some(rs), Some(isr)) =>
      (match (IntArrayOf(rs), IntArrayOf(isr))
       case (Some(replicas), Some(inSync)) => Some(PartitionInfo(p, l, replicas, inSync))
       case _ => None)
    case _ => None
  }

  /** `TopicInfo`: the partitions array lists each partition's object in
      order, and `partitionCount` sits beside it. */
  function TopicInfoJson(t: TopicInfo): (j: Json)
    ensures TopicInfoOf(j) == Some(t)
    ensures Field(j, "name") == Some(JString(t.name))
    ensures Field(j, "partitionCount") == Some(JNumber(t.partitionCount))
  {
    StringMapRoundTrip(t.configs);
    var partitions := JArray(seq(|t.partitions|, i requires 0 <= i < |t.partitions| => PartitionInfoJson(t.partitions[i])));
    ReadArray(partitions, t.partitions, PartitionInfoOf);
    JObject(map[
      "name" := JString(t.name),
      "partitionCount" := JNumber(t.partitionCount),
      "partitions" := partitions,
      "configs" := StringMap(t.configs)])
  }

  function TopicInfoOf(j: Json): Option<TopicInfo> {
    match (Field(j, "name"), Field(j, "partitionCount"), Field(j, "partitions"), Field(j, "configs"))
    case (Some(JString(n)), Some(JNumber(count)), Some(ps), Some(cs)) =>
      (match (ArrayOf(ps, PartitionInfoOf), StringMapOf(cs))
       case (Some(partitions), Some(configs)) => Some(TopicInfo(n, count, partitions, configs))
       case _ => None)
    case _ => None
  }

  // ---------------------------------------------------------------------
  // ConsumerGroupInfo
  // ---------------------------------------------------------------------

  function AssignmentJson(a: TopicPartitionAssignment): (j: Json)
    ensures AssignmentOf(j) == Some(a)
  {
    IntArrayRoundTrip(a.partitions);
    JObject(map["topic" := JString(a.topic), "partitions" := IntArray(a.partitions)])
  }

  function AssignmentOf(j: Json): Option<TopicPartitionAssignment> {
    match (Field(j, "topic"), Field(j, "partitions"))
    case (Some(JString(t)), Some(ps)) =>
      (match IntArrayOf(ps)
       case Some(partitions) => Some(TopicPartitionAssignment(t, partitions))
       case None => None)
    case _ => None
  }

  function MemberInfoJson(m: MemberInfo): (j: Json)
    ensures MemberInfoOf(j) == Some(m)
  {
    var assignments := JArray(seq(|m.assignments|, i requires 0 <= i < |m.assignments| => AssignmentJson(m.assignments[i])));
    ReadArray(assignments, m.assignments, AssignmentOf);
    JObject(map[
      "memberId" := JString(m.memberId),
      "clientId" := JString(m.clientId),
      "host" := JString(m.host),
      "assignments" := assignments])
  }

  function MemberInfoOf(j: Json): Option<MemberInfo> {
    match (Field(j, "memberId"), Field(j, "clientId"), Field(j, "host"), Field(j, "assignments"))
    case (Some(JString(id)), Some(JString(client)), Some(JString(host)), Some(entries)) =>
      (match ArrayOf(entries, AssignmentOf)
       case Some(assignments) => Some(MemberInfo(id, client, host, assignments))
       case None => None)
    case _ => None
  }

  /** `ConsumerGroupInfo`: a missing coordinator is written as `null`. */
  function GroupInfoJson(g: ConsumerGroupInfo): (j: Json)
    ensures GroupInfoOf(j) == Some(g)
    ensures Field(j, "coordinator") == Some(NullableString(g.coordinator))
  {
    var members := JArray(seq(|g.members|, i requires 0 <= i < |g.members| => MemberInfoJson(g.members[i])));
    ReadArray(members, g.members, MemberInfoOf);
    JObject(map[
      "groupId" := JString(g.groupId),
      "state" := JString(g.state),
      "coordinator" := NullableString(g.coordinator),
      "partitionAssignor" := JString(g.partitionAssignor),
      "members" := members])
  }

  function GroupInfoOf(j: Json): Option<ConsumerGroupInfo> {
    match (Field(j, "groupId"), Field(j, "state"), Field(j, "coordinator"), Field(j, "partitionAssignor"), Field(j, "members"))
    case (Some(JString(id)), Some(JString(state)), Some(c), Some(JString(assignor)), Some(ms)) =>
      (match (NullableStringOf(c), ArrayOf(ms, MemberInfoOf))
       case (Some(coordinator), Some(members)) => Some(ConsumerGroupInfo(id, state, coordinator, assignor, members))
       case _ => None)
    case _ => None
  }

  // ---------------------------------------------------------------------
  // ClusterInfo
  // ---------------------------------------------------------------------

  function BrokerInfoJson(b: BrokerInfo): (j: Json)
    ensures BrokerInfoOf(j) == Some(b)
  {
    JObject(map[
      "id" := JNumber(b.id),
      "host" := JString(b.host),
      "port" := JNumber(b.port),
      "rack" := NullableString(b.rack)])
  }

  function BrokerInfoOf(j: Json): Option<BrokerInfo> {
    match (Field(j, "id"), Field(j, "host"), Field(j, "port"), Field(j, "rack"))
    case (Some(JNumber(id)), Some(JString(host)), Some(JNumber(port)), Some(r)) =>
      (match NullableStringOf(r)
       case Some(rack) => Some(BrokerInfo(id, host, port, rack))
       case None => None)
    case _ => None
  }

  function ClusterInfoJson(c: ClusterInfo): (j: Json)
    ensures ClusterInfoOf(j) == Some(c)
    ensures Field(j, "controller") == Some(BrokerInfoJson(c.controller))
  {
    var brokers := JArray(seq(|c.brokers|, i requires 0 <= i < |c.brokers| => BrokerInfoJson(c.brokers[i])));
    ReadArray(brokers, c.brokers, BrokerInfoOf);
    JObject(map[
      "clusterId" := JString(c.clusterId),
      "controller" := BrokerInfoJson(c.controller),
      "brokers" := brokers])
  }

  function ClusterInfoOf(j: Json): Option<ClusterInfo> {
    match (Field(j, "clusterId"), Field(j, "controller"), Field(j, "brokers"))
    case (Some(JString(id)), Some(ctl), Some(bs)) =>
      (match (BrokerInfoOf(ctl), ArrayOf(bs, BrokerInfoOf))
       case (Some(controller), Some(brokers)) => Some(ClusterInfo(id, controller, brokers))
       case _ => None)
    case _ => None
  }
}
