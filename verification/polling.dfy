/** The bounded poll loops of `consumeMessages` and `peekMessages`
    (KafkaService.java).  The consumer client is replaced by a trace: an
    optional fault raised while the consumer is set up (construction,
    `subscribe`, `assign`, `seek`) and the sequence of results its `poll`
    calls return, each a batch of records or a thrown exception.  Polls past
    the end of the trace return an empty batch.  For `consumeMessages`, the
    wall clock is a reading `start`, which fixes the deadline, and a
    sequence `ticks` of readings, `ticks[k]` being taken by the k-th test of
    the loop condition. */
module Polling {

  import opened Wrappers
  import opened Jvm
  import opened Dto
  import opened Headers

  /** A consumed record, before its headers are decoded. */
  datatype ConsumerRecord = ConsumerRecord(
    topic: string,
    partition: int,
    offset: int,
    key: Option<string>,
    value: Option<string>,
    timestamp: int,
    headers: seq<RecordHeader>)

  datatype Poll = Records(batch: seq<ConsumerRecord>) | PollFault(error: Exception)

  datatype ConsumerSession = ConsumerSession(setupFault: Option<Exception>, polls: seq<Poll>)

  /** The result of the k-th `poll` call. */
  function PollAt(polls: seq<Poll>, k: nat): Poll {
    if k < |polls| then polls[k] else Records([])
  }

  function BatchOf(p: Poll): seq<ConsumerRecord> {
    if p.Records? then p.batch else []
  }

  /** The records of the first k polls, in order. */
  function Polled(polls: seq<Poll>, k: nat): seq<ConsumerRecord> {
    if k == 0 then [] else Polled(polls, k - 1) + BatchOf(PollAt(polls, k - 1))
  }

  /** The first `n` elements of `xs`, or all of them if there are fewer. */
  function Take<T>(xs: seq<T>, n: int): (r: seq<T>)
    ensures |r| == if n <= 0 then 0 else if n < |xs| then n else |xs|
    ensures r == xs[..|r|]
  {
    if n <= 0 then [] else if n < |xs| then xs[..n] else xs
  }

  /** The `KafkaMessage` built from one record. */
  function ToMessage(rec: ConsumerRecord, jvm: Platform): (r: Result<KafkaMessage, Exception>)
    ensures r.Success? <==> NoNullValues(rec.headers)
    ensures r.Failure? ==> r.error == jvm.nullDereference
  {
    match DecodeHeaders(rec.headers, jvm)
    case Failure(e) => Failure(e)
    case Success(h) => Success(KafkaMessage(rec.topic, rec.partition, rec.offset, rec.key, rec.value, rec.timestamp, h))
  }

  /** Converting records one after the other; the first failure aborts.
      `ToMessagesSucceeds` says when it succeeds and `ToMessagesElements`
      which messages come out. */
  function ToMessages(recs: seq<ConsumerRecord>, jvm: Platform): (r: Result<seq<KafkaMessage>, Exception>)
    ensures r.Success? ==> |r.value| == |recs|
    ensures r.Failure? ==> r.error == jvm.nullDereference
    decreases |recs|
  {
    if |recs| == 0 then Success([])
    else
      match ToMessages(recs[..|recs| - 1], jvm)
      case Failure(e) => Failure(e)
      case Success(ms) =>
        match ToMessage(recs[|recs| - 1], jvm)
        case Failure(e) => Failure(e)
        case Success(m) => Success(ms + [m])
  }

  /** The conversion succeeds exactly when no record has a `null` header value. */
  lemma {:induction false} ToMessagesSucceeds(recs: seq<ConsumerRecord>, jvm: Platform)
    ensures ToMessages(recs, jvm).Success? <==> forall i :: 0 <= i < |recs| ==> NoNullValues(recs[i].headers)
    decreases |recs|
  {
    if |recs| > 0 {
      var init := recs[..|recs| - 1];
      assert forall i :: 0 <= i < |init| ==> init[i] == recs[i];
      ToMessagesSucceeds(init, jvm);
    }
  }

  /** Message `i` is built from record `i`. */
  lemma {:induction false} ToMessagesElements(recs: seq<ConsumerRecord>, jvm: Platform)
    requires ToMessages(recs, jvm).Success?
    ensures forall i :: 0 <= i < |recs| ==> ToMessage(recs[i], jvm) == Success(ToMessages(recs, jvm).value[i])
    decreases |recs|
  {
    if |recs| > 0 {
      var init := recs[..|recs| - 1];
      assert forall i :: 0 <= i < |init| ==> init[i] == recs[i];
      ToMessagesElements(init, jvm);
    }
  }

  /** Once a prefix fails to convert, every extension fails the same way. */
  lemma {:induction false} ToMessagesPrefixFails(p: seq<ConsumerRecord>, w: seq<ConsumerRecord>, jvm: Platform)
    requires |p| <= |w| && w[..|p|] == p
    requires ToMessages(p, jvm).Failure?
    ensures ToMessages(w, jvm) == ToMessages(p, jvm)
    decreases |w|
  {
    if |p| < |w| {
      var init := w[..|w| - 1];
      assert init[..|p|] == p;
      ToMessagesPrefixFails(p, init, jvm);
    } else {
      assert w == p;
    }
  }

  lemma {:induction false} PolledGrows(polls: seq<Poll>, j: nat, k: nat)
    requires j <= k
    ensures |Polled(polls, j)| <= |Polled(polls, k)|
    ensures Polled(polls, k)[..|Polled(polls, j)|] == Polled(polls, j)
    decreases k
  {
    if j < k {
      PolledGrows(polls, j, k - 1);
    }
  }

  lemma TakeGrows<T>(xs: seq<T>, ys: seq<T>, n: int)
    requires |xs| <= |ys| && ys[..|xs|] == xs
    ensures |Take(xs, n)| <= |Take(ys, n)|
    ensures Take(ys, n)[..|Take(xs, n)|] == Take(xs, n)
  {
  }

  /** A conversion failure among the first records of `j` polls stays the
      result when more polls follow. */
  lemma LaterPollsKeepFailure(polls: seq<Poll>, j: nat, n: nat, limit: int, jvm: Platform)
    requires j <= n
    requires ToMessages(Take(Polled(polls, j), limit), jvm).Failure?
    ensures ToMessages(Take(Polled(polls, n), limit), jvm) == ToMessages(Take(Polled(polls, j), limit), jvm)
  {
    PolledGrows(polls, j, n);
    var a := Polled(polls, j);
    var b := Polled(polls, n);
    TakeGrows(a, b, limit);
    ToMessagesPrefixFails(Take(a, limit), Take(b, limit), jvm);
  }

  lemma ToMessagesSnoc(xs: seq<ConsumerRecord>, x: ConsumerRecord, jvm: Platform)
    requires ToMessages(xs, jvm).Success?
    ensures ToMessage(x, jvm).Success? ==>
              ToMessages(xs + [x], jvm) == Success(ToMessages(xs, jvm).value + [ToMessage(x, jvm).value])
    ensures ToMessage(x, jvm).Failure? ==> ToMessages(xs + [x], jvm) == Failure(jvm.nullDereference)
  {
    assert (xs + [x])[..|xs|] == xs;
  }

  /** One step of the inner loop: below the limit, record `i` is converted and appended. */
  lemma AppendOne(seen: seq<ConsumerRecord>, batch: seq<ConsumerRecord>, i: int, limit: int,
                  acc: seq<KafkaMessage>, jvm: Platform)
    requires 0 <= i < |batch|
    requires ToMessages(Take(seen + batch[..i], limit), jvm) == Success(acc)
    requires |acc| < limit
    ensures ToMessage(batch[i], jvm).Success? ==>
              ToMessages(Take(seen + batch[..i + 1], limit), jvm) == Success(acc + [ToMessage(batch[i], jvm).value])
    ensures ToMessage(batch[i], jvm).Failure? ==>
              ToMessages(Take(seen + batch, limit), jvm) == Failure(jvm.nullDereference)
  {
    var before := seen + batch[..i];
    var after := seen + batch[..i + 1];
    assert batch[..i + 1] == batch[..i] + [batch[i]];
    assert after == before + [batch[i]];
    assert Take(before, limit) == before;
    assert Take(after, limit) == after;
    ToMessagesSnoc(before, batch[i], jvm);
    if ToMessage(batch[i], jvm).Failure? {
      FailureSpoilsBatch(seen, batch, i, limit, jvm);
    }
  }

  /** A record that fails to convert below the limit makes the whole batch fail. */
  lemma FailureSpoilsBatch(seen: seq<ConsumerRecord>, batch: seq<ConsumerRecord>, i: int, limit: int, jvm: Platform)
    requires 0 <= i < |batch|
    requires |seen + batch[..i]| < limit
    requires ToMessages(seen + batch[..i + 1], jvm).Failure?
    ensures ToMessages(Take(seen + batch, limit), jvm) == Failure(jvm.nullDereference)
  {
    var after := seen + batch[..i + 1];
    var whole := seen + batch;
    assert batch == batch[..i + 1] + batch[i + 1..];
    assert whole == after + batch[i + 1..];
    assert whole[..|after|] == after;
    TakeGrows(after, whole, limit);
    ToMessagesPrefixFails(after, Take(whole, limit), jvm);
  }

  /** The inner loop breaks at the limit: the rest of the batch is not looked at. */
  lemma AppendFull(seen: seq<ConsumerRecord>, batch: seq<ConsumerRecord>, i: int, limit: int,
                   acc: seq<KafkaMessage>, jvm: Platform)
    requires 0 <= i <= |batch|
    requires ToMessages(Take(seen + batch[..i], limit), jvm) == Success(acc)
    requires |acc| >= limit
    ensures ToMessages(Take(seen + batch, limit), jvm) == Success(acc)
  {
    var before := seen + batch[..i];
    var whole := seen + batch;
    assert batch == batch[..i] + batch[i..];
    assert whole == before + batch[i..];
    assert whole[..|before|] == before;
    assert Take(whole, limit) == Take(before, limit);
  }

  /** The inner `for` loop shared by both operations: append the batch's
      messages in order, stopping once `limit` messages are held.
      `seen` are the records the messages so far were built from. */
  method AppendUpTo(messages: seq<KafkaMessage>, batch: seq<ConsumerRecord>, limit: int, jvm: Platform,
                    ghost seen: seq<ConsumerRecord>)
    returns (r: Result<seq<KafkaMessage>, Exception>)
    requires ToMessages(Take(seen, limit), jvm) == Success(messages)
    ensures r == ToMessages(Take(seen + batch, limit), jvm)
  {
    var acc := messages;
    var i := 0;
    assert seen + batch[..0] == seen;
    while i < |batch|
      invariant 0 <= i <= |batch|
      invariant ToMessages(Take(seen + batch[..i], limit), jvm) == Success(acc)
    {
      if |acc| >= limit {
        AppendFull(seen, batch, i, limit, acc, jvm);
        return Success(acc);
      }
      AppendOne(seen, batch, i, limit, acc, jvm);
      var m := ToMessage(batch[i], jvm);
      if m.Failure? {
        return Failure(m.error);
      }
      acc := acc + [m.value];
      i := i + 1;
    }
    assert batch[..|batch|] == batch;
    return Success(acc);
  }

  // ---------------------------------------------------------------------
  // consumeMessages

  /** The clock trace is long enough for the loop: its last reading is at or
      past the deadline `start + timeoutMs`. */
  predicate ClockReachesDeadline(start: int, ticks: seq<int>, timeoutMs: int) {
    |ticks| >= 1 && ticks[|ticks| - 1] >= start + timeoutMs
  }

  /** The consume loop goes on to make poll `j`: fewer than `maxMessages`
      records are held, the reading taken at the test is before the
      deadline, and the poll does not throw. */
  predicate ConsumeContinues(polls: seq<Poll>, ticks: seq<int>, deadline: int, maxMessages: int, j: nat)
    requires j < |ticks|
  {
    |Polled(polls, j)| < maxMessages && ticks[j] < deadline && PollAt(polls, j).Records?
  }

  /** The index of the poll the consume loop stops at, searching from poll
      `k`: the loop stops when `maxMessages` records are held, when the
      clock reading taken at the test is past the deadline, or when the
      poll throws.  `ConsumeStopPast` and `ConsumeStopsAt` show it is the
      first index at which the loop does not go on. */
  function ConsumeStop(polls: seq<Poll>, ticks: seq<int>, deadline: int, maxMessages: int, k: nat): (n: nat)
    requires k < |ticks| && ticks[|ticks| - 1] >= deadline
    ensures k <= n && n < |ticks|
    ensures !ConsumeContinues(polls, ticks, deadline, maxMessages, n)
    decreases |ticks| - k
  {
    if !ConsumeContinues(polls, ticks, deadline, maxMessages, k) then k
    else ConsumeStop(polls, ticks, deadline, maxMessages, k + 1)
  }

  /** The loop goes on at every poll before the one it stops at. */
  lemma {:induction false} ConsumeStopPast(polls: seq<Poll>, ticks: seq<int>, deadline: int, maxMessages: int,
                                           i: nat, j: nat)
    requires i < |ticks| && ticks[|ticks| - 1] >= deadline
    requires i <= j < ConsumeStop(polls, ticks, deadline, maxMessages, i)
    ensures ConsumeContinues(polls, ticks, deadline, maxMessages, j)
    decreases j - i
  {
    assert ConsumeContinues(polls, ticks, deadline, maxMessages, i);
    if i < j {
      ConsumeStopPast(polls, ticks, deadline, maxMessages, i + 1, j);
    }
  }

  /** The first poll at which the loop does not go on is where it stops. */
  lemma {:induction false} ConsumeStopsAt(polls: seq<Poll>, ticks: seq<int>, deadline: int, maxMessages: int,
                                          i: nat, k: nat)
    requires i < |ticks| && ticks[|ticks| - 1] >= deadline
    requires i <= k <= ConsumeStop(polls, ticks, deadline, maxMessages, i)
    requires !ConsumeContinues(polls, ticks, deadline, maxMessages, k)
    ensures ConsumeStop(polls, ticks, deadline, maxMessages, i) == k
    decreases k - i
  {
    if i < k {
      assert ConsumeContinues(polls, ticks, deadline, maxMessages, i);
      ConsumeStopsAt(polls, ticks, deadline, maxMessages, i + 1, k);
    }
  }

  /** What `consumeMessages` returns or throws, stated over the stopping
      poll `n`: the messages of the first `maxMessages` records polled
      before `n`; the conversion fault if one of those records has a `null`
      header value; or poll `n`'s exception if the loop made that poll. */
  function ConsumeOutcome(maxMessages: int, timeoutMs: int, session: ConsumerSession, start: int, ticks: seq<int>, jvm: Platform)
    : Result<seq<KafkaMessage>, Exception>
    requires ClockReachesDeadline(start, ticks, timeoutMs)
  {
    if session.setupFault.Some? then Failure(session.setupFault.value)
    else
      var deadline := start + timeoutMs;
      var n := ConsumeStop(session.polls, ticks, deadline, maxMessages, 0);
      ConsumeSettle(session.polls, ticks, deadline, maxMessages, n, jvm)
  }

  /** The result once the loop stops at poll `n`. */
  function ConsumeSettle(polls: seq<Poll>, ticks: seq<int>, deadline: int, maxMessages: int, n: nat, jvm: Platform)
    : Result<seq<KafkaMessage>, Exception>
    requires n < |ticks| && !ConsumeContinues(polls, ticks, deadline, maxMessages, n)
  {
    var gathered := ToMessages(Take(Polled(polls, n), maxMessages), jvm);
    if gathered.Success? && |Polled(polls, n)| < maxMessages && ticks[n] < deadline then
      Failure(PollAt(polls, n).error)
    else gathered
  }

  /** A settled consume fails on a record's headers or on the stopping poll. */
  lemma SettleFailures(polls: seq<Poll>, ticks: seq<int>, deadline: int, maxMessages: int, n: nat, jvm: Platform)
    requires n < |ticks| && !ConsumeContinues(polls, ticks, deadline, maxMessages, n)
    ensures var r := ConsumeSettle(polls, ticks, deadline, maxMessages, n, jvm);
            r.Failure? ==> r.error == jvm.nullDereference || exists j :: PollAt(polls, j).PollFault? && r.error == PollAt(polls, j).error
  {
    var r := ConsumeSettle(polls, ticks, deadline, maxMessages, n, jvm);
    if r.Failure? && r.error != jvm.nullDereference {
      assert PollAt(polls, n).PollFault? && r.error == PollAt(polls, n).error;
    }
  }

  /** Once the stopping poll is known to be `k`, the outcome is settled there. */
  lemma ConsumeOutcomeAt(maxMessages: int, timeoutMs: int, session: ConsumerSession, start: int, ticks: seq<int>,
                         jvm: Platform, k: nat)
    requires ClockReachesDeadline(start, ticks, timeoutMs) && session.setupFault.None?
    requires k < |ticks| && ConsumeStop(session.polls, ticks, start + timeoutMs, maxMessages, 0) == k
    ensures ConsumeOutcome(maxMessages, timeoutMs, session, start, ticks, jvm)
         == ConsumeSettle(session.polls, ticks, start + timeoutMs, maxMessages, k, jvm)
  {
  }

  /** The state of the consume loop before its `k`-th test: the loop has not
      stopped earlier, and `messages` are the messages of the first
      `maxMessages` records of the first `k` polls. */
  predicate ConsumeHeld(polls: seq<Poll>, ticks: seq<int>, deadline: int, maxMessages: int, k: nat,
                        messages: seq<KafkaMessage>, jvm: Platform)
  {
    && 0 < |ticks| && ticks[|ticks| - 1] >= deadline
    && k < |ticks| && k <= ConsumeStop(polls, ticks, deadline, maxMessages, 0)
    && ToMessages(Take(Polled(polls, k), maxMessages), jvm) == Success(messages)
  }

  /** The loop leaves by its condition at poll `k`: the messages held are the result. */
  lemma ConsumeEndsAtCondition(polls: seq<Poll>, ticks: seq<int>, deadline: int, maxMessages: int, k: nat,
                               messages: seq<KafkaMessage>, jvm: Platform)
    requires ConsumeHeld(polls, ticks, deadline, maxMessages, k, messages, jvm)
    requires !(|messages| < maxMessages && ticks[k] < deadline)
    ensures ConsumeStop(polls, ticks, deadline, maxMessages, 0) == k
    ensures ConsumeSettle(polls, ticks, deadline, maxMessages, k, jvm) == Success(messages)
  {
    assert |Take(Polled(polls, k), maxMessages)| == |messages|;
    assert !ConsumeContinues(polls, ticks, deadline, maxMessages, k);
    ConsumeStopsAt(polls, ticks, deadline, maxMessages, 0, k);
  }

  /** Poll `k` throws while the loop still runs: its exception is the result. */
  lemma ConsumeEndsAtPollFault(polls: seq<Poll>, ticks: seq<int>, deadline: int, maxMessages: int, k: nat,
                               messages: seq<KafkaMessage>, jvm: Platform)
    requires ConsumeHeld(polls, ticks, deadline, maxMessages, k, messages, jvm)
    requires |messages| < maxMessages && ticks[k] < deadline && PollAt(polls, k).PollFault?
    ensures ConsumeStop(polls, ticks, deadline, maxMessages, 0) == k
    ensures ConsumeSettle(polls, ticks, deadline, maxMessages, k, jvm) == Failure(PollAt(polls, k).error)
  {
    assert |Take(Polled(polls, k), maxMessages)| == |messages|;
    assert !ConsumeContinues(polls, ticks, deadline, maxMessages, k);
    ConsumeStopsAt(polls, ticks, deadline, maxMessages, 0, k);
  }

  /** A poll that does not throw, made while the loop condition holds, is
      not the stopping poll. */
  lemma ConsumeGoesOn(polls: seq<Poll>, ticks: seq<int>, deadline: int, maxMessages: int, k: nat,
                      messages: seq<KafkaMessage>, jvm: Platform)
    requires ConsumeHeld(polls, ticks, deadline, maxMessages, k, messages, jvm)
    requires |messages| < maxMessages && ticks[k] < deadline && PollAt(polls, k).Records?
    ensures k < ConsumeStop(polls, ticks, deadline, maxMessages, 0) && k + 1 < |ticks|
  {
    assert |Take(Polled(polls, k), maxMessages)| == |messages|;
    assert ConsumeContinues(polls, ticks, deadline, maxMessages, k);
    var n := ConsumeStop(polls, ticks, deadline, maxMessages, 0);
    assert k != n;
    assert n < |ticks|;
  }

  /** A record of poll `k` fails to convert: that failure is the result of
      the loop stopping at any later poll `n`. */
  lemma ConsumeEndsAtRecordFault(polls: seq<Poll>, ticks: seq<int>, deadline: int, maxMessages: int, k: nat,
                                 n: nat, jvm: Platform)
    requires k < n < |ticks| && !ConsumeContinues(polls, ticks, deadline, maxMessages, n)
    requires ToMessages(Take(Polled(polls, k + 1), maxMessages), jvm).Failure?
    ensures ConsumeSettle(polls, ticks, deadline, maxMessages, n, jvm) == ToMessages(Take(Polled(polls, k + 1), maxMessages), jvm)
  {
    LaterPollsKeepFailure(polls, k + 1, n, maxMessages, jvm);
    SettleFailed(polls, ticks, deadline, maxMessages, n, jvm);
  }

  /** A conversion failure among the records gathered is the result. */
  lemma SettleFailed(polls: seq<Poll>, ticks: seq<int>, deadline: int, maxMessages: int, n: nat, jvm: Platform)
    requires n < |ticks| && !ConsumeContinues(polls, ticks, deadline, maxMessages, n)
    requires ToMessages(Take(Polled(polls, n), maxMessages), jvm).Failure?
    ensures ConsumeSettle(polls, ticks, deadline, maxMessages, n, jvm) == ToMessages(Take(Polled(polls, n), maxMessages), jvm)
  {
  }

  /** `KafkaService.consumeMessages` once the consumer is subscribed: poll
      while fewer than `maxMessages` messages are held and the clock is
      before the deadline, converting records until `maxMessages` are held. */
  method ConsumeMessages(maxMessages: int, timeoutMs: int, session: ConsumerSession, start: int, ticks: seq<int>, jvm: Platform)
    returns (r: Result<seq<KafkaMessage>, Exception>)
    requires ClockReachesDeadline(start, ticks, timeoutMs)
    ensures r == ConsumeOutcome(maxMessages, timeoutMs, session, start, ticks, jvm)
  {
    if session.setupFault.Some? {
      return Failure(session.setupFault.value);
    }
    var deadline := start + timeoutMs;
    r := ConsumeLoop(maxMessages, session.polls, ticks, deadline, jvm);
    ConsumeOutcomeAt(maxMessages, timeoutMs, session, start, ticks, jvm, ConsumeStop(session.polls, ticks, deadline, maxMessages, 0));
  }

  /** The poll loop of `consumeMessages`, once the consumer is subscribed. */
  method ConsumeLoop(maxMessages: int, polls: seq<Poll>, ticks: seq<int>, deadline: int, jvm: Platform)
    returns (r: Result<seq<KafkaMessage>, Exception>)
    requires 0 < |ticks| && ticks[|ticks| - 1] >= deadline
    ensures r == ConsumeSettle(polls, ticks, deadline, maxMessages, ConsumeStop(polls, ticks, deadline, maxMessages, 0), jvm)
  {
    ghost var n := ConsumeStop(polls, ticks, deadline, maxMessages, 0);
    var messages: seq<KafkaMessage> := [];
    var k: nat := 0;
    while |messages| < maxMessages && ticks[k] < deadline
      invariant ConsumeHeld(polls, ticks, deadline, maxMessages, k, messages, jvm)
      decreases n - k
    {
      var p := PollAt(polls, k);
      if p.PollFault? {
        ConsumeEndsAtPollFault(polls, ticks, deadline, maxMessages, k, messages, jvm);
        return Failure(p.error);
      }
      ConsumeGoesOn(polls, ticks, deadline, maxMessages, k, messages, jvm);
      var next := AppendUpTo(messages, p.batch, maxMessages, jvm, Polled(polls, k));
      assert Polled(polls, k + 1) == Polled(polls, k) + p.batch;
      if next.Failure? {
        ConsumeEndsAtRecordFault(polls, ticks, deadline, maxMessages, k, n, jvm);
        return next;
      }
      messages := next.value;
      k := k + 1;
    }
    ConsumeEndsAtCondition(polls, ticks, deadline, maxMessages, k, messages, jvm);
    return Success(messages);
  }

  // ---------------------------------------------------------------------
  // peekMessages

  /** The peek loop goes on past poll `j`: fewer than `count` records are
      held and poll `j` returns a non-empty batch. */
  predicate PeekContinues(polls: seq<Poll>, count: int, j: nat) {
    |Polled(polls, j)| < count && PollAt(polls, j).Records? && PollAt(polls, j).batch != []
  }

  /** The index of the poll the peek loop stops at, searching from poll
      `k`: it stops before polling once `count` records are held, and at
      the first poll that returns no records or throws. */
  function PeekStop(polls: seq<Poll>, count: int, k: nat): (n: nat)
    ensures k <= n
    ensures !PeekContinues(polls, count, n)
    decreases |polls| - k
  {
    if !PeekContinues(polls, count, k) then k
    else PeekStop(polls, count, k + 1)
  }

  /** The loop goes on at every poll before the one it stops at. */
  lemma {:induction false} PeekStopPast(polls: seq<Poll>, count: int, i: nat, j: nat)
    requires i <= j < PeekStop(polls, count, i)
    ensures PeekContinues(polls, count, j)
    decreases j - i
  {
    assert PeekContinues(polls, count, i);
    if i < j {
      PeekStopPast(polls, count, i + 1, j);
    }
  }

  /** The first poll at which the loop does not go on is where it stops. */
  lemma {:induction false} PeekStopsAt(polls: seq<Poll>, count: int, i: nat, k: nat)
    requires i <= k <= PeekStop(polls, count, i)
    requires !PeekContinues(polls, count, k)
    ensures PeekStop(polls, count, i) == k
    decreases k - i
  {
    if i < k {
      assert PeekContinues(polls, count, i);
      PeekStopsAt(polls, count, i + 1, k);
    }
  }

  /** What `peekMessages` returns or throws, stated over the stopping poll
      `n`: the messages of the first `count` records polled before `n`; the
      conversion fault if one of those records has a `null` header value;
      or poll `n`'s exception if the loop made that poll. */
  function PeekOutcome(count: int, session: ConsumerSession, jvm: Platform): Result<seq<KafkaMessage>, Exception> {
    if session.setupFault.Some? then Failure(session.setupFault.value)
    else PeekSettle(session.polls, count, PeekStop(session.polls, count, 0), jvm)
  }

  /** The result once the loop stops at poll `n`. */
  function PeekSettle(polls: seq<Poll>, count: int, n: nat, jvm: Platform): Result<seq<KafkaMessage>, Exception> {
    var gathered := ToMessages(Take(Polled(polls, n), count), jvm);
    if gathered.Success? && |Polled(polls, n)| < count && PollAt(polls, n).PollFault? then
      Failure(PollAt(polls, n).error)
    else gathered
  }

  /** The state of the peek loop before its `k`-th test: the loop has not
      stopped earlier, and `messages` are the messages of the first `count`
      records of the first `k` polls. */
  predicate PeekHeld(polls: seq<Poll>, count: int, k: nat, messages: seq<KafkaMessage>, jvm: Platform) {
    && k <= PeekStop(polls, count, 0)
    && ToMessages(Take(Polled(polls, k), count), jvm) == Success(messages)
  }

  /** The loop leaves by its condition or at an empty poll: the messages held are the result. */
  lemma PeekEndsQuietly(polls: seq<Poll>, count: int, k: nat, messages: seq<KafkaMessage>, jvm: Platform)
    requires PeekHeld(polls, count, k, messages, jvm)
    requires |messages| >= count || PollAt(polls, k) == Records([])
    ensures PeekStop(polls, count, 0) == k
    ensures PeekSettle(polls, count, k, jvm) == Success(messages)
  {
    assert |Take(Polled(polls, k), count)| == |messages|;
    assert !PeekContinues(polls, count, k);
    PeekStopsAt(polls, count, 0, k);
  }

  /** Poll `k` throws while the loop still runs: its exception is the result. */
  lemma PeekEndsAtPollFault(polls: seq<Poll>, count: int, k: nat, messages: seq<KafkaMessage>, jvm: Platform)
    requires PeekHeld(polls, count, k, messages, jvm)
    requires |messages| < count && PollAt(polls, k).PollFault?
    ensures PeekStop(polls, count, 0) == k
    ensures PeekSettle(polls, count, k, jvm) == Failure(PollAt(polls, k).error)
  {
    assert |Take(Polled(polls, k), count)| == |messages|;
    assert !PeekContinues(polls, count, k);
    PeekStopsAt(polls, count, 0, k);
  }

  /** A poll with records, made while fewer than `count` are held, is not
      the stopping poll. */
  lemma PeekGoesOn(polls: seq<Poll>, count: int, k: nat, messages: seq<KafkaMessage>, jvm: Platform)
    requires PeekHeld(polls, count, k, messages, jvm)
    requires |messages| < count && PollAt(polls, k).Records? && PollAt(polls, k).batch != []
    ensures k < PeekStop(polls, count, 0)
  {
    assert |Take(Polled(polls, k), count)| == |messages|;
    assert PeekContinues(polls, count, k);
    assert k != PeekStop(polls, count, 0);
  }

  /** A record of poll `k` fails to convert: that failure is the result of
      the loop stopping at any later poll `n`. */
  lemma PeekEndsAtRecordFault(polls: seq<Poll>, count: int, k: nat, n: nat, jvm: Platform)
    requires k < n
    requires ToMessages(Take(Polled(polls, k + 1), count), jvm).Failure?
    ensures PeekSettle(polls, count, n, jvm) == ToMessages(Take(Polled(polls, k + 1), count), jvm)
  {
    LaterPollsKeepFailure(polls, k + 1, n, count, jvm);
    PeekSettleFailed(polls, count, n, jvm);
  }

  /** A conversion failure among the records gathered is the result. */
  lemma PeekSettleFailed(polls: seq<Poll>, count: int, n: nat, jvm: Platform)
    requires ToMessages(Take(Polled(polls, n), count), jvm).Failure?
    ensures PeekSettle(polls, count, n, jvm) == ToMessages(Take(Polled(polls, n), count), jvm)
  {
  }

  /** `KafkaService.peekMessages` once the consumer is assigned and has
      sought: poll while fewer than `count` messages are held, stop at the
      first empty poll, converting records until `count` are held. */
  method PeekMessages(count: int, session: ConsumerSession, jvm: Platform)
    returns (r: Result<seq<KafkaMessage>, Exception>)
    ensures r == PeekOutcome(count, session, jvm)
  {
    if session.setupFault.Some? {
      return Failure(session.setupFault.value);
    }
    r := PeekLoop(count, session.polls, jvm);
  }

  /** The poll loop of `peekMessages`, once the consumer has sought. */
  method PeekLoop(count: int, polls: seq<Poll>, jvm: Platform) returns (r: Result<seq<KafkaMessage>, Exception>)
    ensures r == PeekSettle(polls, count, PeekStop(polls, count, 0), jvm)
  {
    ghost var n := PeekStop(polls, count, 0);
    var messages: seq<KafkaMessage> := [];
    var k: nat := 0;
    while |messages| < count
      invariant PeekHeld(polls, count, k, messages, jvm)
      decreases n - k
    {
      var p := PollAt(polls, k);
      if p.PollFault? {
        PeekEndsAtPollFault(polls, count, k, messages, jvm);
        return Failure(p.error);
      }
      if p.batch == [] {
        PeekEndsQuietly(polls, count, k, messages, jvm);
        return Success(messages);
      }
      PeekGoesOn(polls, count, k, messages, jvm);
      var next := AppendUpTo(messages, p.batch, count, jvm, Polled(polls, k));
      assert Polled(polls, k + 1) == Polled(polls, k) + p.batch;
      if next.Failure? {
        PeekEndsAtRecordFault(polls, count, k, n, jvm);
        return next;
      }
      messages := next.value;
      k := k + 1;
    }
    PeekEndsQuietly(polls, count, k, messages, jvm);
    return Success(messages);
  }

  // ---------------------------------------------------------------------
  // What the loops deliver

  /** A successful consume returns the messages of the first records polled,
      in poll order, at most `maxMessages` of them; every poll it made was
      made before the deadline with fewer than `maxMessages` messages held;
      and it stopped because `maxMessages` were held or the deadline passed. */
  lemma ConsumeDelivers(maxMessages: int, timeoutMs: int, session: ConsumerSession, start: int, ticks: seq<int>, jvm: Platform)
    requires ClockReachesDeadline(start, ticks, timeoutMs) && session.setupFault.None?
    ensures var deadline := start + timeoutMs;
            var n := ConsumeStop(session.polls, ticks, deadline, maxMessages, 0);
            var r := ConsumeOutcome(maxMessages, timeoutMs, session, start, ticks, jvm);
            r.Success? ==>
              && |r.value| == |Take(Polled(session.polls, n), maxMessages)|
              && |r.value| <= |Polled(session.polls, n)|
              && (forall i :: 0 <= i < |r.value| ==> ToMessage(Polled(session.polls, n)[i], jvm) == Success(r.value[i]))
              && (forall j :: 0 <= j < n ==> ticks[j] < deadline && |Polled(session.polls, j)| < maxMessages)
              && (|r.value| >= maxMessages || ticks[n] >= deadline)
  {
    var deadline := start + timeoutMs;
    var polls := session.polls;
    var n := ConsumeStop(polls, ticks, deadline, maxMessages, 0);
    var recs := Take(Polled(polls, n), maxMessages);
    var r := ConsumeOutcome(maxMessages, timeoutMs, session, start, ticks, jvm);
    assert r == ConsumeSettle(polls, ticks, deadline, maxMessages, n, jvm);
    if r.Success? {
      assert ToMessages(recs, jvm) == r;
      ToMessagesElements(recs, jvm);
      forall i | 0 <= i < |r.value|
        ensures ToMessage(Polled(polls, n)[i], jvm) == Success(r.value[i])
      {
        assert recs[i] == Polled(polls, n)[i];
      }
      forall j | 0 <= j < n
        ensures ticks[j] < deadline && |Polled(polls, j)| < maxMessages
      {
        ConsumeStopPast(polls, ticks, deadline, maxMessages, 0, j);
      }
    }
  }

  /** A consume fails only with the set-up fault, the conversion fault of a
      record with a `null` header value, or the exception of one of its polls. */
  lemma ConsumeFailures(maxMessages: int, timeoutMs: int, session: ConsumerSession, start: int, ticks: seq<int>, jvm: Platform)
    requires ClockReachesDeadline(start, ticks, timeoutMs)
    ensures var r := ConsumeOutcome(maxMessages, timeoutMs, session, start, ticks, jvm);
            r.Failure? ==>
              || (session.setupFault.Some? && r.error == session.setupFault.value)
              || r.error == jvm.nullDereference
              || exists j :: PollAt(session.polls, j).PollFault? && r.error == PollAt(session.polls, j).error
  {
    if session.setupFault.None? {
      var deadline := start + timeoutMs;
      var n := ConsumeStop(session.polls, ticks, deadline, maxMessages, 0);
      ConsumeOutcomeAt(maxMessages, timeoutMs, session, start, ticks, jvm, n);
      SettleFailures(session.polls, ticks, deadline, maxMessages, n, jvm);
    }
  }

  /** Asking for no messages, or a deadline already passed at the first
      test, returns an empty list without polling. */
  lemma ConsumeNothing(maxMessages: int, timeoutMs: int, session: ConsumerSession, start: int, ticks: seq<int>, jvm: Platform)
    requires ClockReachesDeadline(start, ticks, timeoutMs) && session.setupFault.None?
    requires maxMessages <= 0 || ticks[0] >= start + timeoutMs
    ensures ConsumeOutcome(maxMessages, timeoutMs, session, start, ticks, jvm) == Success([])
  {
    ConsumeStopsAt(session.polls, ticks, start + timeoutMs, maxMessages, 0, 0);
  }

  /** A successful peek returns the messages of the first records polled, in
      poll order, at most `count` of them; it stopped because `count` were
      held or a poll returned no records. */
  lemma PeekDelivers(count: int, session: ConsumerSession, jvm: Platform)
    requires session.setupFault.None?
    ensures var n := PeekStop(session.polls, count, 0);
            var r := PeekOutcome(count, session, jvm);
            r.Success? ==>
              && |r.value| == |Take(Polled(session.polls, n), count)|
              && (forall i :: 0 <= i < |r.value| ==> ToMessage(Polled(session.polls, n)[i], jvm) == Success(r.value[i]))
              && (forall j :: 0 <= j < n ==> PollAt(session.polls, j).Records? && PollAt(session.polls, j).batch != [])
              && (|r.value| >= count || PollAt(session.polls, n) == Records([]))
  {
    var polls := session.polls;
    var n := PeekStop(polls, count, 0);
    var recs := Take(Polled(polls, n), count);
    var r := PeekOutcome(count, session, jvm);
    if r.Success? {
      assert ToMessages(recs, jvm) == r;
      ToMessagesElements(recs, jvm);
      forall i | 0 <= i < |r.value|
        ensures ToMessage(Polled(polls, n)[i], jvm) == Success(r.value[i])
      {
        assert recs[i] == Polled(polls, n)[i];
      }
      forall j | 0 <= j < n
        ensures PollAt(polls, j).Records? && PollAt(polls, j).batch != []
      {
        PeekStopPast(polls, count, 0, j);
      }
    }
  }

  /** A peek fails only with the set-up fault, the conversion fault of a
      record with a `null` header value, or the exception of one of its polls. */
  lemma PeekFailures(count: int, session: ConsumerSession, jvm: Platform)
    ensures var r := PeekOutcome(count, session, jvm);
            r.Failure? ==>
              || (session.setupFault.Some? && r.error == session.setupFault.value)
              || r.error == jvm.nullDereference
              || exists j :: PollAt(session.polls, j).PollFault? && r.error == PollAt(session.polls, j).error
  {
    if session.setupFault.None? {
      var n := PeekStop(session.polls, count, 0);
      var r := PeekOutcome(count, session, jvm);
      if r.Failure? && r.error != jvm.nullDereference {
        assert PollAt(session.polls, n).PollFault? && r.error == PollAt(session.polls, n).error;
      }
    }
  }

  /** A peek whose first poll returns no records, or that asks for none,
      returns an empty list. */
  lemma PeekNothing(count: int, session: ConsumerSession, jvm: Platform)
    requires session.setupFault.None?
    requires count <= 0 || PollAt(session.polls, 0) == Records([])
    ensures PeekOutcome(count, session, jvm) == Success([])
  {
    PeekStopsAt(session.polls, count, 0, 0);
  }
}
