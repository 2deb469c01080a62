/** Record headers in both directions (KafkaService.java): decoding a consumed
    record's headers into a `Map<String, String>`, and turning the produce
    call's header map into record headers. */
module Headers {

  import opened Wrappers
  import opened JsonValue
  import opened Jvm

  /** A record header as the client library holds it; the value bytes may be `null`. */
  datatype RecordHeader = RecordHeader(key: string, value: Option<seq<byte>>)

  function HeaderKeys(hs: seq<RecordHeader>): set<string> {
    set i | 0 <= i < |hs| :: hs[i].key
  }

  /** No later header repeats the key of header `i`. */
  predicate LastWithKey(hs: seq<RecordHeader>, i: int)
    requires 0 <= i < |hs|
  {
    forall j :: i < j < |hs| ==> hs[j].key != hs[i].key
  }

  lemma HeaderKeysSnoc(hs: seq<RecordHeader>, h: RecordHeader)
    ensures HeaderKeys(hs + [h]) == HeaderKeys(hs) + {h.key}
  {
    var both := hs + [h];
    forall k | k in HeaderKeys(both)
      ensures k in HeaderKeys(hs) + {h.key}
    {
      var i :| 0 <= i < |both| && both[i].key == k;
      if i < |hs| {
        assert hs[i].key == k;
      }
    }
    forall k | k in HeaderKeys(hs)
      ensures k in HeaderKeys(both)
    {
      var i :| 0 <= i < |hs| && hs[i].key == k;
      assert both[i].key == k;
    }
    assert both[|hs|].key == h.key;
  }

  predicate DistinctKeys(hs: seq<RecordHeader>) {
    forall i, j :: 0 <= i < j < |hs| ==> hs[i].key != hs[j].key
  }

  /** Every header carries value bytes. */
  predicate NoNullValues(hs: seq<RecordHeader>) {
    forall i :: 0 <= i < |hs| ==> hs[i].value.Some?
  }

  /** The consume and peek loops: each header, in order, stores its value
      bytes decoded as UTF-8 under its key, overwriting an earlier entry.
      A header with a `null` value makes the `String` constructor
      dereference `null`.  `DecodeHeadersContents` states which map comes
      out. */
  function DecodeHeaders(hs: seq<RecordHeader>, jvm: Platform): (r: Result<map<string, string>, Exception>)
    ensures r.Success? <==> NoNullValues(hs)
    ensures r.Failure? ==> r.error == jvm.nullDereference
    decreases |hs|
  {
    if |hs| == 0 then Success(map[])
    else
      match DecodeHeaders(hs[..|hs| - 1], jvm)
      case Failure(e) => Failure(e)
      case Success(m) =>
        var h := hs[|hs| - 1];
        if h.value.None? then Failure(jvm.nullDereference)
        else Success(m[h.key := jvm.decodeUtf8(h.value.value)])
  }

  /** The decoded map's keys are exactly the headers' keys, and a repeated
      key keeps the value of its last occurrence. */
  lemma {:induction false} DecodeHeadersContents(hs: seq<RecordHeader>, jvm: Platform)
    requires NoNullValues(hs)
    ensures DecodeHeaders(hs, jvm).value.Keys == HeaderKeys(hs)
    ensures forall i :: 0 <= i < |hs| && LastWithKey(hs, i) ==>
              DecodeHeaders(hs, jvm).value[hs[i].key] == jvm.decodeUtf8(hs[i].value.value)
    decreases |hs|
  {
    if |hs| > 0 {
      var init := hs[..|hs| - 1];
      var h := hs[|hs| - 1];
      assert hs == init + [h];
      HeaderKeysSnoc(init, h);
      assert NoNullValues(init) by {
        assert forall i :: 0 <= i < |init| ==> init[i] == hs[i];
      }
      DecodeHeadersContents(init, jvm);
      forall i | 0 <= i < |hs| - 1 && LastWithKey(hs, i)
        ensures LastWithKey(init, i)
      {
      }
    }
  }

  /** The exception `v.getBytes(UTF_8)` raises for a header value Jackson did
      not parse as a string. */
  function ValueFault(v: Json, jvm: Platform): Exception {
    if v.JNull? then jvm.nullDereference else jvm.castFailure(v)
  }

  predicate AllStrings(m: map<string, Json>) {
    forall k :: k in m ==> m[k].JString?
  }

  /** `hs` holds one header per entry of `m`, the entry's value UTF-8 encoded. */
  predicate Encodes(m: map<string, Json>, hs: seq<RecordHeader>, jvm: Platform) {
    && |hs| == |m|
    && HeaderKeys(hs) == m.Keys
    && DistinctKeys(hs)
    && forall i :: 0 <= i < |hs| ==>
         hs[i].key in m && m[hs[i].key].JString? && hs[i].value == Some(jvm.encodeUtf8(m[hs[i].key].s))
  }

  lemma {:induction false} DistinctKeysCardinality(hs: seq<RecordHeader>)
    requires DistinctKeys(hs)
    ensures |HeaderKeys(hs)| == |hs|
    decreases |hs|
  {
    if |hs| > 0 {
      var init := hs[..|hs| - 1];
      assert hs == init + [hs[|hs| - 1]];
      HeaderKeysSnoc(init, hs[|hs| - 1]);
      DistinctKeysCardinality(init);
    }
  }

  /** What the producer loop has built so far: one header per visited key,
      each key once, each value the UTF-8 encoding of the entry's string. */
  predicate EncodedSoFar(m: map<string, Json>, out: seq<RecordHeader>, visited: set<string>, jvm: Platform) {
    && HeaderKeys(out) == visited
    && DistinctKeys(out)
    && forall i :: 0 <= i < |out| ==>
         out[i].key in m && m[out[i].key].JString? && out[i].value == Some(jvm.encodeUtf8(m[out[i].key].s))
  }

  lemma EncodeStep(m: map<string, Json>, out: seq<RecordHeader>, visited: set<string>, k: string, jvm: Platform)
    requires EncodedSoFar(m, out, visited, jvm)
    requires k in m && m[k].JString? && k !in visited
    ensures EncodedSoFar(m, out + [RecordHeader(k, Some(jvm.encodeUtf8(m[k].s)))], visited + {k}, jvm)
  {
    var h := RecordHeader(k, Some(jvm.encodeUtf8(m[k].s)));
    assert forall i :: 0 <= i < |out| ==> out[i].key in HeaderKeys(out);
    HeaderKeysSnoc(out, h);
  }

  /** A proper subset leaves something unvisited. */
  lemma SomeUnvisited<T>(visited: set<T>, all: set<T>)
    requires visited <= all && visited != all
    ensures all - visited != {}
  {
    if all - visited == {} {
      forall x | x in all
        ensures x in visited
      {
        assert x !in all - visited;
      }
    }
  }

  lemma EncodeDone(m: map<string, Json>, out: seq<RecordHeader>, jvm: Platform)
    requires EncodedSoFar(m, out, m.Keys, jvm)
    ensures Encodes(m, out, jvm)
  {
    DistinctKeysCardinality(out);
  }

  /** `produceMessage` adds one record header per entry of the header map,
      its value's UTF-8 bytes, or no headers at all for a `null` map.  Jackson
      hands over a `LinkedHashMap` in the order of the headers text, but the
      model's JSON objects carry no field order, so the visiting order is
      left open; the first value that is not a string aborts the conversion with the JVM's exception. */
  method EncodeHeaders(headers: Option<map<string, Json>>, jvm: Platform) returns (r: Result<seq<RecordHeader>, Exception>)
    ensures headers.None? ==> r == Success([])
    ensures headers.Some? ==> (r.Success? <==> AllStrings(headers.value))
    ensures headers.Some? && r.Success? ==> Encodes(headers.value, r.value, jvm)
    ensures headers.Some? && r.Failure? ==>
              exists k :: k in headers.value && !headers.value[k].JString? && r.error == ValueFault(headers.value[k], jvm)
  {
    if headers.None? {
      return Success([]);
    }
    var m := headers.value;
    var visited: set<string> := {};
    var out: seq<RecordHeader> := [];
    while visited != m.Keys
      invariant visited <= m.Keys
      invariant EncodedSoFar(m, out, visited, jvm)
      decreases m.Keys - visited
    {
      SomeUnvisited(visited, m.Keys);
      var k :| k in m.Keys - visited;
      var v := m[k];
      if !v.JString? {
        return Failure(ValueFault(v, jvm));
      }
      EncodeStep(m, out, visited, k, jvm);
      out := out + [RecordHeader(k, Some(jvm.encodeUtf8(v.s)))];
      visited := visited + {k};
    }
    EncodeDone(m, out, jvm);
    EncodedValuesAreStrings(m, out, jvm);
    return Success(out);
  }

  /** The string values of a map whose values are all strings. */
  function StringValues(m: map<string, Json>): (r: map<string, string>)
    requires AllStrings(m)
    ensures r.Keys == m.Keys
    ensures forall k :: k in m ==> m[k] == JString(r[k])
  {
    map k | k in m :: m[k].s
  }

  /** Every value of an encoded map is a string. */
  lemma EncodedValuesAreStrings(m: map<string, Json>, hs: seq<RecordHeader>, jvm: Platform)
    requires Encodes(m, hs, jvm)
    ensures AllStrings(m)
    ensures NoNullValues(hs)
  {
    forall k | k in m
      ensures m[k].JString?
    {
      assert k in HeaderKeys(hs);
      var i :| 0 <= i < |hs| && hs[i].key == k;
    }
  }

  /** The entry decoded from header `i` is the string the producer encoded there. */
  lemma RoundTripAt(m: map<string, Json>, hs: seq<RecordHeader>, jvm: Platform, i: int)
    requires Encodes(m, hs, jvm) && AllStrings(m) && NoNullValues(hs)
    requires forall k :: k in m && m[k].JString? ==> jvm.decodeUtf8(jvm.encodeUtf8(m[k].s)) == m[k].s
    requires 0 <= i < |hs|
    ensures hs[i].key in DecodeHeaders(hs, jvm).value
    ensures DecodeHeaders(hs, jvm).value[hs[i].key] == m[hs[i].key].s
  {
    DecodeHeadersContents(hs, jvm);
    assert LastWithKey(hs, i);
    assert hs[i].key in HeaderKeys(hs);
  }

  /** Each key of the encoded map decodes back to its string. */
  lemma DecodedAgrees(m: map<string, Json>, hs: seq<RecordHeader>, jvm: Platform)
    requires Encodes(m, hs, jvm) && AllStrings(m) && NoNullValues(hs)
    requires forall k :: k in m && m[k].JString? ==> jvm.decodeUtf8(jvm.encodeUtf8(m[k].s)) == m[k].s
    ensures DecodeHeaders(hs, jvm).Success?
    ensures DecodeHeaders(hs, jvm).value.Keys == m.Keys
    ensures forall k :: k in m ==> DecodeHeaders(hs, jvm).value[k] == m[k].s
  {
    DecodeHeadersContents(hs, jvm);
    forall k | k in m
      ensures DecodeHeaders(hs, jvm).value[k] == m[k].s
    {
      assert k in HeaderKeys(hs);
      var i :| 0 <= i < |hs| && hs[i].key == k;
      RoundTripAt(m, hs, jvm, i);
    }
  }

  /** Headers survive a produce/consume round trip: decoding what the
      producer encoded gives back the header map, whenever UTF-8 decoding
      inverts UTF-8 encoding on its values. */
  lemma HeadersRoundTrip(m: map<string, Json>, hs: seq<RecordHeader>, jvm: Platform)
    requires Encodes(m, hs, jvm)
    requires forall k :: k in m && m[k].JString? ==> jvm.decodeUtf8(jvm.encodeUtf8(m[k].s)) == m[k].s
    ensures AllStrings(m)
    ensures DecodeHeaders(hs, jvm) == Success(StringValues(m))
  {
    EncodedValuesAreStrings(m, hs, jvm);
    DecodedAgrees(m, hs, jvm);
    var r := DecodeHeaders(hs, jvm).value;
    var want := StringValues(m);
    assert r == want;
  }
}
