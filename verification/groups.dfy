/** `describeConsumerGroup` in `KafkaService`: each member's assigned
    topic-partitions are grouped by topic through a `HashMap`, and the
    group coordinator is rendered as "host:port".  The admin client's
    answer is an input: the description, or the exception `get()` throws. */
module Groups {

  import opened Wrappers
  import opened Jvm
  import opened Text
  import opened Dto
  import opened Topics

  datatype TopicPartition = TopicPartition(topic: string, partition: int)

  /** `MemberDescription`: `topicPartitions` lists the member's assignment
      (a `Set`) in its iteration order. */
  datatype MemberDescription = MemberDescription(
    consumerId: string,
    clientId: string,
    host: string,
    topicPartitions: seq<TopicPartition>)

  /** `ConsumerGroupDescription`; `state` is the state's `toString()`. */
  datatype GroupDescription = GroupDescription(
    groupId: string,
    state: string,
    coordinator: Option<Node>,
    partitionAssignor: string,
    members: seq<MemberDescription>)

  // ---------------------------------------------------------------------
  // Grouping a member's assignment by topic
  // ---------------------------------------------------------------------

  /** The `HashMap` the loop fills: for each topic-partition in turn, the
      topic's list is created when absent and the partition appended. */
  function GroupByTopic(tps: seq<TopicPartition>): map<string, seq<int>>
    decreases |tps|
  {
    if |tps| == 0 then map[]
    else
      var byTopic := GroupByTopic(tps[..|tps| - 1]);
      var tp := tps[|tps| - 1];
      var sofar := if tp.topic in byTopic then byTopic[tp.topic] else [];
      byTopic[tp.topic := sofar + [tp.partition]]
  }

  /** The topics of an assignment. */
  function TopicsOf(tps: seq<TopicPartition>): set<string> {
    set i | 0 <= i < |tps| :: tps[i].topic
  }

  /** The partitions assigned for `topic`, in assignment order. */
  function PartitionsOf(tps: seq<TopicPartition>, topic: string): seq<int>
    decreases |tps|
  {
    if |tps| == 0 then []
    else
      var tp := tps[|tps| - 1];
      PartitionsOf(tps[..|tps| - 1], topic) + (if tp.topic == topic then [tp.partition] else [])
  }

  /** `p` is among the partitions of `topic` exactly when the pair is assigned. */
  lemma {:induction false} PartitionsOfMembers(tps: seq<TopicPartition>, topic: string, p: int)
    ensures p in PartitionsOf(tps, topic) <==> TopicPartition(topic, p) in tps
    decreases |tps|
  {
    if |tps| > 0 {
      var init := tps[..|tps| - 1];
      assert tps == init + [tps[|tps| - 1]];
      PartitionsOfMembers(init, topic, p);
    }
  }

  /** The grouping holds one list per assigned topic, and each list is the
      topic's partitions in assignment order. */
  lemma {:induction false} GroupByTopicIsFilter(tps: seq<TopicPartition>)
    ensures GroupByTopic(tps).Keys == TopicsOf(tps)
    ensures forall t :: t in GroupByTopic(tps) ==> GroupByTopic(tps)[t] == PartitionsOf(tps, t)
    decreases |tps|
  {
    if |tps| > 0 {
      var init := tps[..|tps| - 1];
      var tp := tps[|tps| - 1];
      GroupByTopicIsFilter(init);
      assert TopicsOf(tps) == TopicsOf(init) + {tp.topic} by {
        assert tps == init + [tp];
        assert forall i :: 0 <= i < |init| ==> tps[i] == init[i];
      }
      if tp.topic !in TopicsOf(init) {
        PartitionsOfEmpty(init, tp.topic);
      }
      forall t | t in GroupByTopic(tps)
        ensures GroupByTopic(tps)[t] == PartitionsOf(tps, t)
      {
        if t != tp.topic {
          assert PartitionsOf(tps, t) == PartitionsOf(init, t) + [];
        }
      }
    }
  }

  /** A topic not in the assignment has no partitions in it. */
  lemma {:induction false} PartitionsOfEmpty(tps: seq<TopicPartition>, topic: string)
    requires topic !in TopicsOf(tps)
    ensures PartitionsOf(tps, topic) == []
    decreases |tps|
  {
    if |tps| > 0 {
      var init := tps[..|tps| - 1];
      assert TopicsOf(init) <= TopicsOf(tps) by {
        forall t | t in TopicsOf(init) ensures t in TopicsOf(tps) {
          var i :| 0 <= i < |init| && init[i].topic == t;
          assert tps[i] == init[i];
        }
      }
      assert tps[|tps| - 1].topic in TopicsOf(tps);
      PartitionsOfEmpty(init, topic);
    }
  }

  /** What `describeConsumerGroup` promises of a member's assignment list
      for the assigned topic-partitions `tps`: one entry per topic, each
      entry lists exactly the topic's assigned partitions in assignment
      order, and every assigned topic has an entry. */
  predicate AssignsExactly(entries: seq<TopicPartitionAssignment>, tps: seq<TopicPartition>) {
    && (forall i, j :: 0 <= i < j < |entries| ==> entries[i].topic != entries[j].topic)
    && (forall i :: 0 <= i < |entries| ==> entries[i].partitions == PartitionsOf(tps, entries[i].topic))
    && (forall i :: 0 <= i < |entries| ==> entries[i].topic in TopicsOf(tps))
    && (forall tp :: tp in tps ==> exists i :: 0 <= i < |entries| && entries[i].topic == tp.topic)
  }

  /** The (topic, partition) pairs the entries list are exactly the assigned ones. */
  lemma AssignsExactlyPairs(entries: seq<TopicPartitionAssignment>, tps: seq<TopicPartition>, topic: string, p: int)
    requires AssignsExactly(entries, tps)
    ensures (exists i :: 0 <= i < |entries| && entries[i].topic == topic && p in entries[i].partitions)
            <==> TopicPartition(topic, p) in tps
  {
    PartitionsOfMembers(tps, topic, p);
    if TopicPartition(topic, p) in tps {
      var i :| 0 <= i < |entries| && entries[i].topic == TopicPartition(topic, p).topic;
      assert entries[i].partitions == PartitionsOf(tps, topic);
    }
  }

  /** What the entry loop has built after visiting the topics `visited`:
      one entry per visited topic, carrying the topic's list. */
  predicate ListedSoFar(byTopic: map<string, seq<int>>, entries: seq<TopicPartitionAssignment>, visited: set<string>) {
    && visited <= byTopic.Keys
    && |entries| == |visited|
    && (forall i, j :: 0 <= i < j < |entries| ==> entries[i].topic != entries[j].topic)
    && (forall i :: 0 <= i < |entries| ==> entries[i].topic in visited && entries[i].partitions == byTopic[entries[i].topic])
    && (forall t :: t in visited ==> exists i :: 0 <= i < |entries| && entries[i].topic == t)
  }

  lemma ListStep(byTopic: map<string, seq<int>>, entries: seq<TopicPartitionAssignment>, visited: set<string>, t: string)
    requires ListedSoFar(byTopic, entries, visited)
    requires t in byTopic && t !in visited
    ensures ListedSoFar(byTopic, entries + [TopicPartitionAssignment(t, byTopic[t])], visited + {t})
  {
    var entries' := entries + [TopicPartitionAssignment(t, byTopic[t])];
    forall u | u in visited + {t}
      ensures exists i :: 0 <= i < |entries'| && entries'[i].topic == u
    {
      if u == t {
        assert entries'[|entries|].topic == u;
      } else {
        var i :| 0 <= i < |entries| && entries[i].topic == u;
        assert entries'[i].topic == u;
      }
    }
  }

  lemma ListDone(byTopic: map<string, seq<int>>, entries: seq<TopicPartitionAssignment>)
    requires ListedSoFar(byTopic, entries, byTopic.Keys)
    ensures |entries| == |byTopic|
    ensures forall i :: 0 <= i < |entries| ==> entries[i].topic in byTopic && entries[i].partitions == byTopic[entries[i].topic]
  {
  }

  /** The map's entries turned into the assignment list, in the map's
      iteration order, which the model leaves open. */
  method Entries(byTopic: map<string, seq<int>>) returns (entries: seq<TopicPartitionAssignment>)
    ensures |entries| == |byTopic|
    ensures forall i, j :: 0 <= i < j < |entries| ==> entries[i].topic != entries[j].topic
    ensures forall i :: 0 <= i < |entries| ==> entries[i].topic in byTopic && entries[i].partitions == byTopic[entries[i].topic]
    ensures forall t :: t in byTopic ==> exists i :: 0 <= i < |entries| && entries[i].topic == t
  {
    entries := [];
    var visited: set<string> := {};
    while visited != byTopic.Keys
      invariant ListedSoFar(byTopic, entries, visited)
      decreases byTopic.Keys - visited
    {
      assert byTopic.Keys - visited != {};
      var t :| t in byTopic.Keys - visited;
      ListStep(byTopic, entries, visited, t);
      entries := entries + [TopicPartitionAssignment(t, byTopic[t])];
      visited := visited + {t};
    }
    ListDone(byTopic, entries);
  }

  /** `info` shows member `m`: its ids and host copied, its assignment
      grouped by topic. */
  predicate DescribesMember(m: MemberDescription, info: MemberInfo) {
    && info.memberId == m.consumerId && info.clientId == m.clientId && info.host == m.host
    && AssignsExactly(info.assignments, m.topicPartitions)
  }

  /** One member as `ConsumerGroupInfo` shows it. */
  method DescribeMember(m: MemberDescription) returns (info: MemberInfo)
    ensures DescribesMember(m, info)
  {
    var byTopic := GroupByTopic(m.topicPartitions);
    GroupByTopicIsFilter(m.topicPartitions);
    var entries := Entries(byTopic);
    forall tp | tp in m.topicPartitions
      ensures tp.topic in byTopic
    {
      var i :| 0 <= i < |m.topicPartitions| && m.topicPartitions[i] == tp;
    }
    info := MemberInfo(m.consumerId, m.clientId, m.host, entries);
  }

  // ---------------------------------------------------------------------
  // The coordinator
  // ---------------------------------------------------------------------

  /** "host:port", the port in decimal. */
  function HostPort(host: string, port: int): string {
    host + ":" + DecimalString(port)
  }

  /** Reads "host:port" back, cutting at the last colon, so a host that
      itself holds colons (an IPv6 literal) survives. */
  function ParseHostPort(s: string): Option<(string, int)> {
    match SplitAtLast(s, ':')
    case None => None
    case Some((host, digits)) =>
      match ParseDecimal(digits)
      case None => None
      case Some(port) => Some((host, port))
  }

  /** The coordinator field: "host:port" of the coordinator node, `null`
      when the description has none. */
  function Coordinator(node: Option<Node>): (r: Option<string>)
    ensures r.Some? <==> node.Some?
    ensures r.Some? ==> r.value == node.value.host + ":" + DecimalString(node.value.port)
    ensures r.Some? ==> ParseHostPort(r.value) == Some((node.value.host, node.value.port))
  {
    match node
    case None => None
    case Some(n) =>
      var digits := DecimalString(n.port);
      assert ':' !in digits by {
        assert forall i :: 0 <= i < |digits| ==> digits[i] != ':';
      }
      SplitAtLastConcat(n.host, ':', digits);
      DecimalRoundTrip(n.port);
      Some(HostPort(n.host, n.port))
  }

  // ---------------------------------------------------------------------
  // describeConsumerGroup
  // ---------------------------------------------------------------------

  /** `g` shows group `d`: its fields copied, the coordinator rendered, and
      every member described, in description order. */
  predicate DescribesGroup(d: GroupDescription, g: ConsumerGroupInfo) {
    && g.groupId == d.groupId
    && g.state == d.state
    && g.coordinator == Coordinator(d.coordinator)
    && g.partitionAssignor == d.partitionAssignor
    && |g.members| == |d.members|
    && forall i :: 0 <= i < |g.members| ==> DescribesMember(d.members[i], g.members[i])
  }

  /** `describeConsumerGroup`: the group's fields copied, the coordinator
      rendered, and every member's assignment grouped by topic, members in
      description order. */
  method DescribeConsumerGroup(description: Result<GroupDescription, Exception>) returns (r: Result<ConsumerGroupInfo, Exception>)
    ensures description.Failure? ==> r == Failure(description.error)
    ensures description.Success? ==> r.Success? && DescribesGroup(description.value, r.value)
  {
    if description.Failure? {
      return Failure(description.error);
    }
    var d := description.value;
    var members: seq<MemberInfo> := [];
    var k := 0;
    while k < |d.members|
      invariant 0 <= k <= |d.members| && |members| == k
      invariant forall i :: 0 <= i < k ==> DescribesMember(d.members[i], members[i])
    {
      var info := DescribeMember(d.members[k]);
      members := members + [info];
      k := k + 1;
    }
    r := Success(ConsumerGroupInfo(d.groupId, d.state, Coordinator(d.coordinator), d.partitionAssignor, members));
  }
}
