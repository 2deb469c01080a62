/** The configuration of the short-lived consumers that `consumeMessages`
    and `peekMessages` build (KafkaService.java): the admin client's
    configuration with a disposable group id, auto-commit off and string
    deserializers laid over it. */
module ConsumerProps {

  /** A configuration value: the entries the service writes are strings and
      booleans; entries copied from the admin configuration are kept as they are. */
  datatype PropValue = Text(s: string) | Flag(b: bool) | Other(raw: string)

  type Props = map<string, PropValue>

  const GroupIdConfig := "group.id"
  const AutoOffsetResetConfig := "auto.offset.reset"
  const EnableAutoCommitConfig := "enable.auto.commit"
  const KeyDeserializerConfig := "key.deserializer"
  const ValueDeserializerConfig := "value.deserializer"
  const StringDeserializer := "org.apache.kafka.common.serialization.StringDeserializer"

  const ConsumeGroupPrefix := "kafka-mcp-consumer-"
  const PeekGroupPrefix := "kafka-mcp-peek-"

  /** The keys both loops overwrite. */
  const SharedOverrides: set<string> :=
    {GroupIdConfig, EnableAutoCommitConfig, KeyDeserializerConfig, ValueDeserializerConfig}

  /** Settings common to both consumers; `groupId` is the namespaced id. */
  function Ephemeral(base: Props, groupId: string): Props {
    base[GroupIdConfig := Text(groupId)]
        [EnableAutoCommitConfig := Flag(false)]
        [KeyDeserializerConfig := Text(StringDeserializer)]
        [ValueDeserializerConfig := Text(StringDeserializer)]
  }

  /** The `consumeMessages` configuration; `uuid` is the random UUID's text. */
  function ConsumeProps(base: Props, uuid: string, fromBeginning: bool): (p: Props)
    ensures p.Keys == base.Keys + SharedOverrides + {AutoOffsetResetConfig}
    ensures p[GroupIdConfig] == Text(ConsumeGroupPrefix + uuid)
    ensures p[AutoOffsetResetConfig] == Text(if fromBeginning then "earliest" else "latest")
    ensures p[EnableAutoCommitConfig] == Flag(false)
    ensures p[KeyDeserializerConfig] == Text(StringDeserializer)
    ensures p[ValueDeserializerConfig] == Text(StringDeserializer)
    ensures forall k :: k in base && k !in SharedOverrides && k != AutoOffsetResetConfig ==> p[k] == base[k]
  {
    Ephemeral(base, ConsumeGroupPrefix + uuid)[AutoOffsetResetConfig := Text(if fromBeginning then "earliest" else "latest")]
  }

  /** The `peekMessages` configuration.  It sets no offset-reset policy: an
      `auto.offset.reset` entry is present only if the admin configuration has one. */
  function PeekProps(base: Props, uuid: string): (p: Props)
    ensures p.Keys == base.Keys + SharedOverrides
    ensures p[GroupIdConfig] == Text(PeekGroupPrefix + uuid)
    ensures p[EnableAutoCommitConfig] == Flag(false)
    ensures p[KeyDeserializerConfig] == Text(StringDeserializer)
    ensures p[ValueDeserializerConfig] == Text(StringDeserializer)
    ensures AutoOffsetResetConfig in p <==> AutoOffsetResetConfig in base
    ensures forall k :: k in base && k !in SharedOverrides ==> p[k] == base[k]
  {
    Ephemeral(base, PeekGroupPrefix + uuid)
  }

  /** The two loops never share a group: no consume group id is a peek group
      id, whatever the UUIDs; and within one loop distinct UUIDs give
      distinct groups. */
  lemma GroupIdsAreDisjoint(base: Props, u: string, v: string, fromBeginning: bool)
    ensures ConsumeProps(base, u, fromBeginning)[GroupIdConfig] != PeekProps(base, v)[GroupIdConfig]
    ensures u != v ==> ConsumeProps(base, u, fromBeginning)[GroupIdConfig] != ConsumeProps(base, v, fromBeginning)[GroupIdConfig]
    ensures u != v ==> PeekProps(base, u)[GroupIdConfig] != PeekProps(base, v)[GroupIdConfig]
  {
    var c := ConsumeGroupPrefix + u;
    var p := PeekGroupPrefix + v;
    assert c[10] != p[10];
    assert (ConsumeGroupPrefix + u)[|ConsumeGroupPrefix|..] == u;
    assert (ConsumeGroupPrefix + v)[|ConsumeGroupPrefix|..] == v;
    assert (PeekGroupPrefix + u)[|PeekGroupPrefix|..] == u;
    assert (PeekGroupPrefix + v)[|PeekGroupPrefix|..] == v;
  }
}
