/** The result shapes handed to Jackson (the `dto` package).  They carry no
    behaviour; a `null`-able string field is an `Option<string>`, and Java's
    `int`/`long` fields are unbounded integers. */
module Dto {

  import opened Wrappers

  /** `TopicInfo.PartitionInfo`: `leader` is a broker id or -1. */
  datatype PartitionInfo = PartitionInfo(
    partition: int,
    leader: int,
    replicas: seq<int>,
    inSyncReplicas: seq<int>)

  /** `TopicInfo`: `configs` holds the non-default entries only. */
  datatype TopicInfo = TopicInfo(
    name: string,
    partitionCount: int,
    partitions: seq<PartitionInfo>,
    configs: map<string, string>)

  /** `KafkaMessage`: one consumed record with its headers decoded. */
  datatype KafkaMessage = KafkaMessage(
    topic: string,
    partition: int,
    offset: int,
    key: Option<string>,
    value: Option<string>,
    timestamp: int,
    headers: map<string, string>)

  /** `ProduceResult`: where a produced record landed, or why it did not. */
  datatype ProduceResult = ProduceResult(
    topic: string,
    partition: int,
    offset: int,
    timestamp: int,
    success: bool,
    errorMessage: Option<string>)

  /** `ConsumerGroupInfo.TopicPartitionAssignment`. */
  datatype TopicPartitionAssignment = TopicPartitionAssignment(topic: string, partitions: seq<int>)

  /** `ConsumerGroupInfo.MemberInfo`. */
  datatype MemberInfo = MemberInfo(
    memberId: string,
    clientId: string,
    host: string,
    assignments: seq<TopicPartitionAssignment>)

  /** `ConsumerGroupInfo`: `coordinator` is "host:port", or null. */
  datatype ConsumerGroupInfo = ConsumerGroupInfo(
    groupId: string,
    state: string,
    coordinator: Option<string>,
    partitionAssignor: string,
    members: seq<MemberInfo>)

  /** `ClusterInfo.BrokerInfo`. */
  datatype BrokerInfo = BrokerInfo(id: int, host: string, port: int, rack: Option<string>)

  /** `ClusterInfo`. */
  datatype ClusterInfo = ClusterInfo(clusterId: string, controller: BrokerInfo, brokers: seq<BrokerInfo>)
}
