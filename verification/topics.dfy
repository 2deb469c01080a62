/** The topic administration calls of `KafkaService`: `describeTopic`, which
    flattens the admin client's description into a `TopicInfo`, and the
    messages `createTopic` and `deleteTopic` return.  Each admin call's
    answer is an input: the value its future yields, or the exception
    `get()` throws. */
module Topics {

  import opened Wrappers
  import opened Jvm
  import opened Text
  import opened Dto

  /** A broker node as the admin client reports it. */
  datatype Node = Node(id: int, host: string, port: int, rack: Option<string>)

  /** `TopicPartitionInfo`: the leader is `null` while the partition has none. */
  datatype PartitionDescription = PartitionDescription(
    partition: int,
    leader: Option<Node>,
    replicas: seq<Node>,
    isr: seq<Node>)

  /** `TopicDescription`: partitions in the order the broker lists them. */
  datatype TopicDescription = TopicDescription(name: string, partitions: seq<PartitionDescription>)

  /** `ConfigEntry`: a sensitive entry's value is `null`. */
  datatype ConfigEntry = ConfigEntry(name: string, value: Option<string>, isDefault: bool)

  function NodeIds(nodes: seq<Node>): (ids: seq<int>)
    ensures |ids| == |nodes|
    ensures forall i :: 0 <= i < |nodes| ==> ids[i] == nodes[i].id
  {
    seq(|nodes|, i requires 0 <= i < |nodes| => nodes[i].id)
  }

  /** One partition of the description as `TopicInfo` shows it: the leader's
      id, or -1 without a leader, and the replica and in-sync replica ids
      in the order the broker lists them. */
  function FlattenPartition(p: PartitionDescription): (r: PartitionInfo)
    ensures r.partition == p.partition
    ensures r.leader == (if p.leader.Some? then p.leader.value.id else -1)
    ensures |r.replicas| == |p.replicas| && |r.inSyncReplicas| == |p.isr|
    ensures forall i :: 0 <= i < |p.replicas| ==> r.replicas[i] == p.replicas[i].id
    ensures forall i :: 0 <= i < |p.isr| ==> r.inSyncReplicas[i] == p.isr[i].id
  {
    PartitionInfo(
      p.partition,
      if p.leader.Some? then p.leader.value.id else -1,
      NodeIds(p.replicas),
      NodeIds(p.isr))
  }

  // ---------------------------------------------------------------------
  // The non-default configuration map
  // ---------------------------------------------------------------------

  /** The entries the stream keeps: the non-default ones, in order. */
  function NonDefault(entries: seq<ConfigEntry>): (kept: seq<ConfigEntry>)
    ensures |kept| <= |entries|
    ensures forall e :: e in kept <==> e in entries && !e.isDefault
    decreases |entries|
  {
    if |entries| == 0 then []
    else
      var rest := NonDefault(entries[1..]);
      assert forall e :: e in entries <==> e == entries[0] || e in entries[1..];
      if entries[0].isDefault then rest else [entries[0]] + rest
  }

  /** The `IllegalStateException` message of `Collectors.toMap` when key
      `k` arrives a second time: the value already stored, then the new one. */
  function DuplicateKeyMessage(k: string, stored: string, arriving: string): string {
    "Duplicate key " + k + " (attempted merging values " + stored + " and " + arriving + ")"
  }

  /** `Collectors.toMap(name, value)` over `kept`, entry by entry: a `null`
      value fails with a `NullPointerException` that has no message, and a
      name seen before fails with the duplicate-key exception. */
  function ToConfigMap(kept: seq<ConfigEntry>): (r: Result<map<string, string>, Exception>)
    ensures r.Success? ==> |r.value| <= |kept|
    decreases |kept|
  {
    if |kept| == 0 then Success(map[])
    else
      match ToConfigMap(kept[..|kept| - 1])
      case Failure(e) => Failure(e)
      case Success(m) =>
        var e := kept[|kept| - 1];
        if e.value.None? then Failure(Exception(None))
        else if e.name in m then Failure(Exception(Some(DuplicateKeyMessage(e.name, m[e.name], e.value.value))))
        else Success(m[e.name := e.value.value])
  }

  predicate AllValued(kept: seq<ConfigEntry>) {
    forall i :: 0 <= i < |kept| ==> kept[i].value.Some?
  }

  predicate UniqueNames(kept: seq<ConfigEntry>) {
    forall i, j :: 0 <= i < j < |kept| ==> kept[i].name != kept[j].name
  }

  function Names(kept: seq<ConfigEntry>): set<string> {
    set i | 0 <= i < |kept| :: kept[i].name
  }

  /** How the three facts about kept entries extend by one entry. */
  lemma ConfigsSnoc(kept: seq<ConfigEntry>)
    requires |kept| > 0
    ensures var init := kept[..|kept| - 1];
            var e := kept[|kept| - 1];
            && (AllValued(kept) <==> AllValued(init) && e.value.Some?)
            && (UniqueNames(kept) <==> UniqueNames(init) && e.name !in Names(init))
            && Names(kept) == Names(init) + {e.name}
  {
    var init := kept[..|kept| - 1];
    var e := kept[|kept| - 1];
    assert forall i :: 0 <= i < |init| ==> init[i] == kept[i];
    if e.name in Names(init) {
      var i :| 0 <= i < |init| && init[i].name == e.name;
      assert kept[i].name == kept[|kept| - 1].name;
    }
    assert Names(kept) == Names(init) + {e.name} by {
      assert kept == init + [e];
    }
  }

  /** The map is built exactly when every kept entry has a value and no
      name repeats. */
  lemma {:induction false} ToConfigMapSucceeds(kept: seq<ConfigEntry>)
    ensures ToConfigMap(kept).Success? <==> AllValued(kept) && UniqueNames(kept)
    decreases |kept|
  {
    if |kept| > 0 {
      var init := kept[..|kept| - 1];
      ToConfigMapSucceeds(init);
      ConfigsSnoc(kept);
      if ToConfigMap(init).Success? {
        ToConfigMapContents(init);
      }
    }
  }

  /** A built map holds exactly the kept names, each with its entry's value. */
  lemma {:induction false} ToConfigMapContents(kept: seq<ConfigEntry>)
    requires ToConfigMap(kept).Success?
    ensures ToConfigMap(kept).value.Keys == Names(kept)
    ensures forall i :: 0 <= i < |kept| ==> kept[i].value == Some(ToConfigMap(kept).value[kept[i].name])
    decreases |kept|
  {
    if |kept| > 0 {
      var init := kept[..|kept| - 1];
      var e := kept[|kept| - 1];
      ToConfigMapContents(init);
      var m := ToConfigMap(init).value;
      assert e.value.Some? && e.name !in m;
      assert kept == init + [e];
      ContentsStep(init, e, m);
    }
  }

  /** One more entry, with a value and a new name, extends the map by one key. */
  lemma ContentsStep(init: seq<ConfigEntry>, e: ConfigEntry, m: map<string, string>)
    requires m.Keys == Names(init)
    requires forall i :: 0 <= i < |init| ==> init[i].value == Some(m[init[i].name])
    requires e.value.Some? && e.name !in m
    ensures var m' := m[e.name := e.value.value];
            && m'.Keys == Names(init + [e])
            && forall i :: 0 <= i < |init + [e]| ==> (init + [e])[i].value == Some(m'[(init + [e])[i].name])
  {
    var kept := init + [e];
    var m' := m[e.name := e.value.value];
    assert Names(kept) == Names(init) + {e.name} by {
      assert forall i :: 0 <= i < |init| ==> kept[i] == init[i];
      assert kept[|init|] == e;
    }
    forall i | 0 <= i < |kept|
      ensures kept[i].value == Some(m'[kept[i].name])
    {
      if i < |init| {
        assert kept[i] == init[i];
        assert init[i].name in Names(init);
      }
    }
  }

  /** How the map fails: a `null` value gives the message-less exception,
      a repeated name the duplicate-key exception with both values. */
  lemma {:induction false} ToConfigMapFails(kept: seq<ConfigEntry>)
    requires ToConfigMap(kept).Failure?
    ensures var err := ToConfigMap(kept).error;
            || (err == Exception(None) && exists i :: 0 <= i < |kept| && kept[i].value.None?)
            || (exists i, j :: 0 <= i < j < |kept| && kept[i].name == kept[j].name
                  && kept[i].value.Some? && kept[j].value.Some?
                  && err == Exception(Some(DuplicateKeyMessage(kept[i].name, kept[i].value.value, kept[j].value.value))))
    decreases |kept|
  {
    var init := kept[..|kept| - 1];
    var last := |kept| - 1;
    var e := kept[last];
    var err := ToConfigMap(kept).error;
    if ToConfigMap(init).Failure? {
      ToConfigMapFails(init);
      assert forall i :: 0 <= i < |init| ==> init[i] == kept[i];
    } else if e.value.Some? {
      var m := ToConfigMap(init).value;
      ToConfigMapContents(init);
      var i :| 0 <= i < |init| && init[i].name == e.name;
      assert init[i] == kept[i];
      assert err == Exception(Some(DuplicateKeyMessage(kept[i].name, kept[i].value.value, kept[last].value.value)));
    }
  }

  // ---------------------------------------------------------------------
  // describeTopic, createTopic, deleteTopic
  // ---------------------------------------------------------------------

  /** `describeTopic`: the description is fetched first, the configuration
      second; either failure propagates, and so does a failure of the
      configuration map.  `DescribeTopicConfigs` states what the map holds. */
  function DescribeTopic(description: Result<TopicDescription, Exception>, config: Result<seq<ConfigEntry>, Exception>): (r: Result<TopicInfo, Exception>)
    ensures description.Failure? ==> r == Failure(description.error)
    ensures description.Success? && config.Failure? ==> r == Failure(config.error)
    ensures r.Success? ==>
              && r.value.name == description.value.name
              && r.value.partitionCount == |r.value.partitions| == |description.value.partitions|
              && forall i :: 0 <= i < |r.value.partitions| ==> r.value.partitions[i] == FlattenPartition(description.value.partitions[i])
  {
    match description
    case Failure(e) => Failure(e)
    case Success(d) =>
      match config
      case Failure(e) => Failure(e)
      case Success(entries) =>
        match ToConfigMap(NonDefault(entries))
        case Failure(e) => Failure(e)
        case Success(configs) =>
          var partitions := seq(|d.partitions|, i requires 0 <= i < |d.partitions| => FlattenPartition(d.partitions[i]));
          Success(TopicInfo(d.name, |d.partitions|, partitions, configs))
  }

  /** The configuration part of `describeTopic`: the call succeeds on
      fetched inputs exactly when the non-default entries all carry values
      under distinct names, and `configs` then holds exactly the
      non-default entries. */
  lemma DescribeTopicConfigs(d: TopicDescription, entries: seq<ConfigEntry>)
    ensures var r := DescribeTopic(Success(d), Success(entries));
            var kept := NonDefault(entries);
            && (r.Success? <==> AllValued(kept) && UniqueNames(kept))
            && (r.Success? ==>
                  && (forall k :: k in r.value.configs <==> exists e :: e in entries && !e.isDefault && e.name == k)
                  && (forall e :: e in entries && !e.isDefault ==> e.value.Some? && r.value.configs[e.name] == e.value.value))
  {
    var kept := NonDefault(entries);
    ToConfigMapSucceeds(kept);
    if ToConfigMap(kept).Success? {
      ToConfigMapContents(kept);
    }
    forall e | e in kept
      ensures exists i :: 0 <= i < |kept| && kept[i] == e
    {
    }
  }

  /** `createTopic`'s message. */
  function CreatedMessage(name: string, partitions: int32, replicationFactor: int16): string {
    "Topic '" + name + "' created successfully with " + DecimalString(partitions)
    + " partition(s) and replication factor " + DecimalString(replicationFactor)
  }

  /** `deleteTopic`'s message. */
  function DeletedMessage(name: string): string {
    "Topic '" + name + "' deleted successfully"
  }

  /** Reads a `createTopic` message back, from its end: the replication
      factor after the last space, then the partition count after the
      last space before the fixed words, and the name between the quotes. */
  function ParseCreated(msg: string): Option<(string, int, int)> {
    match SplitAtLast(msg, ' ')
    case None => None
    case Some((front, rf)) =>
      match (StripSuffix(front, " partition(s) and replication factor"), ParseDecimal(rf))
      case (Some(head), Some(r)) =>
        (match SplitAtLast(head, ' ')
         case None => None
         case Some((lead, ps)) =>
           match (StripSuffix(lead, "' created successfully with"), ParseDecimal(ps))
           case (Some(quoted), Some(p)) =>
             (match StripPrefix(quoted, "Topic '")
              case Some(name) => Some((name, p, r))
              case None => None)
           case _ => None)
      case _ => None
  }

  /** Reads a `deleteTopic` message back. */
  function ParseDeleted(msg: string): Option<string> {
    match StripSuffix(msg, "' deleted successfully")
    case None => None
    case Some(quoted) => StripPrefix(quoted, "Topic '")
  }

  lemma NoSpaceInDecimal(n: int)
    ensures ' ' !in DecimalString(n)
  {
    var s := DecimalString(n);
    assert forall i :: 0 <= i < |s| ==> s[i] != ' ';
  }

  /** The created message names the topic, the partition count and the
      replication factor unambiguously, whatever the topic name holds. */
  lemma CreatedRoundTrip(name: string, partitions: int32, replicationFactor: int16)
    ensures ParseCreated(CreatedMessage(name, partitions, replicationFactor)) == Some((name, partitions as int, replicationFactor as int))
  {
    var ps := DecimalString(partitions);
    var rs := DecimalString(replicationFactor);
    var lead := "Topic '" + name + "' created successfully with";
    var head := lead + " " + ps;
    var front := head + " partition(s) and replication factor";
    var msg := CreatedMessage(name, partitions, replicationFactor);
    assert msg == front + [' '] + rs;
    NoSpaceInDecimal(partitions);
    NoSpaceInDecimal(replicationFactor);
    SplitAtLastConcat(front, ' ', rs);
    StripSuffixConcat(head, " partition(s) and replication factor");
    DecimalRoundTrip(replicationFactor);
    assert head == lead + [' '] + ps;
    SplitAtLastConcat(lead, ' ', ps);
    DecimalRoundTrip(partitions);
    StripSuffixConcat("Topic '" + name, "' created successfully with");
    StripPrefixConcat("Topic '", name);
  }

  lemma DeletedRoundTrip(name: string)
    ensures ParseDeleted(DeletedMessage(name)) == Some(name)
  {
    StripSuffixConcat("Topic '" + name, "' deleted successfully");
    StripPrefixConcat("Topic '", name);
  }

  /** A creation message never reads as a deletion message. */
  lemma CreatedIsNotDeleted(name: string, partitions: int32, replicationFactor: int16, other: string)
    ensures CreatedMessage(name, partitions, replicationFactor) != DeletedMessage(other)
  {
    var c := CreatedMessage(name, partitions, replicationFactor);
    var rs := DecimalString(replicationFactor);
    assert c[|c| - 1] == rs[|rs| - 1];
    assert DeletedMessage(other)[|DeletedMessage(other)| - 1] == 'y';
  }

  /** `createTopic`: `outcome` is what waiting on the creation yields,
      `None` when the broker accepted the topic. */
  function CreateTopic(name: string, partitions: int32, replicationFactor: int16, outcome: Option<Exception>): (r: Result<string, Exception>)
    ensures r.Success? <==> outcome.None?
    ensures r.Failure? ==> r.error == outcome.value
    ensures r.Success? ==> ParseCreated(r.value) == Some((name, partitions as int, replicationFactor as int))
  {
    if outcome.Some? then Failure(outcome.value)
    else
      CreatedRoundTrip(name, partitions, replicationFactor);
      Success(CreatedMessage(name, partitions, replicationFactor))
  }

  /** `deleteTopic`, with the same reading of `outcome`. */
  function DeleteTopic(name: string, outcome: Option<Exception>): (r: Result<string, Exception>)
    ensures r.Success? <==> outcome.None?
    ensures r.Failure? ==> r.error == outcome.value
    ensures r.Success? ==> ParseDeleted(r.value) == Some(name)
  {
    if outcome.Some? then Failure(outcome.value)
    else
      DeletedRoundTrip(name);
      Success(DeletedMessage(name))
  }
}
