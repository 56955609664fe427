/** The log target FluentTarget: it formats the messages a yii logger collected into records,
    drops those its filter rejects, hands the rest to a Fluentd client in one batch, and turns
    whatever goes wrong into one LogRuntimeException. */
module LogTarget {
  import opened Outcomes
  import opened Decimal
  import FluentClient

  // ---------------------------------------------------------------------------------------
  // Values and messages

  /** A PHP value inside a formatted record. Arrays are keyed by strings. */
  datatype Value =
    | Null
    | Bool(b: bool)
    | Int(i: int)
    | Real(r: real)
    | Str(s: string)
    | Arr(entries: map<string, Value>)

  /** A formatted record: a PHP array keyed by strings. */
  type Record = map<string, Value>

  /** The text of a logged message: a string or other value, or an exception. An exception
      comes with its string rendering and with the details formatExceptionAsArray shows
      (class, message, file, line, trace). */
  datatype Text = Data(value: Value) | Thrown(rendered: string, details: Record)

  /** A message as yii's logger collects it: text, level, category and timestamp. */
  datatype Message = Message(text: Text, level: int, category: string, timestamp: Value)

  /** An entry of an array merged into a record: a value to put under its key, or
      yii's UnsetArrayValue, which removes the key. */
  datatype Entry = Put(value: Value) | Unset

  /** The suffix: a callable that gets the raw message and the formatted data and returns the
      new data, or an array merged into the data. */
  datatype Suffix = Callback(f: (Message, Record) -> Record) | Patch(entries: map<string, Entry>)

  // ---------------------------------------------------------------------------------------
  // Merging

  /** ArrayHelper::merge(data, patch), at the top level: an entry of the patch overrides the
      key of the data, and an unset entry removes it. */
  function Merge(data: Record, patch: map<string, Entry>): (r: Record)
    ensures forall k :: k in patch && patch[k].Put? ==> k in r && r[k] == patch[k].value
    ensures forall k :: k in patch && patch[k].Unset? ==> k !in r
    ensures forall k :: k !in patch ==> (k in r <==> k in data)
    ensures forall k :: k !in patch && k in data ==> r[k] == data[k]
  {
    map k | k in data.Keys + patch.Keys && !(k in patch && patch[k].Unset?) ::
      if k in patch then patch[k].value else data[k]
  }

  /** The unset markers setHideKeys stores, one per hidden key. */
  function Unsets(keys: set<string>): (p: map<string, Entry>)
    ensures p.Keys == keys
  {
    map k | k in keys :: Unset
  }

  /** Merging unset markers deletes exactly their keys. */
  lemma MergeUnsets(data: Record, keys: set<string>)
    ensures Merge(data, Unsets(keys)) == data - keys
  {
    var r := Merge(data, Unsets(keys));
    assert r.Keys == data.Keys - keys;
  }

  /** Merging values only is overriding the data with them. */
  lemma MergePuts(data: Record, values: Record)
    ensures Merge(data, map k | k in values :: Put(values[k])) == data + values
  {
    var r := Merge(data, map k | k in values :: Put(values[k]));
    assert r.Keys == data.Keys + values.Keys;
  }

  // ---------------------------------------------------------------------------------------
  // formatMessage, stage by stage

  /** The text once exceptions are replaced: an exception becomes an array with one key,
      `exception`, holding its string rendering or, with formatExceptionAsArray, its details. */
  function TextValue(text: Text, exceptionAsArray: bool): (v: Value)
    ensures text.Data? ==> v == text.value
    ensures text.Thrown? ==> v.Arr? && v.entries.Keys == {"exception"}
    ensures text.Thrown? && exceptionAsArray ==> v.entries["exception"] == Arr(text.details)
    ensures text.Thrown? && !exceptionAsArray ==> v.entries["exception"] == Str(text.rendered)
  {
    match text
    case Data(v) => v
    case Thrown(rendered, details) =>
      Arr(map["exception" := if exceptionAsArray then Arr(details) else Str(rendered)])
  }

  /** The keys the text contributes: an array text is merged as it is when mergeArrayMessage is
      set; any other text goes under `message`. */
  function TextEntries(v: Value, mergeArrayMessage: bool): (e: Record)
    ensures v.Arr? && mergeArrayMessage ==> e == v.entries
    ensures !v.Arr? || !mergeArrayMessage ==> e.Keys == {"message"} && e["message"] == v
  {
    if v.Arr? && mergeArrayMessage then v.entries else map["message" := v]
  }

  /** The standard keys of every record. */
  function Standard(m: Message, levelName: string): (e: Record)
    ensures e.Keys == {"timestamp", "level", "category"}
    ensures e["timestamp"] == m.timestamp && e["level"] == Str(levelName)
    ensures e["category"] == Str(m.category)
  {
    map["timestamp" := m.timestamp, "level" := Str(levelName), "category" := Str(m.category)]
  }

  /** The suffix applied to the formatted data. */
  function ApplySuffix(suffix: Suffix, m: Message, data: Record): Record
  {
    match suffix
    case Callback(f) => f(m, data)
    case Patch(entries) => Merge(data, entries)
  }

  // ---------------------------------------------------------------------------------------
  // getFormattedMessages' filter

  /** The filter lets a message through when there is no filter or when the filter accepts it. */
  predicate Accepts(filter: Option<Message -> bool>, m: Message)
  {
    filter.None? || filter.value(m)
  }

  /** The messages the filter lets through, in their order. */
  function Kept(filter: Option<Message -> bool>, ms: seq<Message>): (kept: seq<Message>)
    ensures |kept| <= |ms|
  {
    if ms == [] then []
    else Kept(filter, ms[..|ms| - 1]) + (if Accepts(filter, ms[|ms| - 1]) then [ms[|ms| - 1]] else [])
  }

  /** Filtering one more message keeps it exactly when the filter accepts it. */
  lemma KeptStep(filter: Option<Message -> bool>, ms: seq<Message>, i: nat)
    requires i < |ms|
    ensures Kept(filter, ms[..i + 1]) ==
      Kept(filter, ms[..i]) + (if Accepts(filter, ms[i]) then [ms[i]] else [])
  {
    assert ms[..i + 1][..i] == ms[..i];
  }

  /** Filtering two runs of messages is filtering each: the order is kept. */
  lemma {:induction false} KeptAppend(filter: Option<Message -> bool>, a: seq<Message>, b: seq<Message>)
    ensures Kept(filter, a + b) == Kept(filter, a) + Kept(filter, b)
    decreases |b|
  {
    if b != [] {
      var b' := b[..|b| - 1];
      assert (a + b)[..|a + b| - 1] == a + b';
      assert (a + b)[|a + b| - 1] == b[|b| - 1];
      KeptAppend(filter, a, b');
    } else {
      assert a + b == a;
    }
  }

  /** A message is kept exactly when it is one of the messages and the filter accepts it. */
  lemma {:induction false} KeptMembers(filter: Option<Message -> bool>, ms: seq<Message>)
    ensures forall m :: m in Kept(filter, ms) <==> m in ms && Accepts(filter, m)
  {
    if ms != [] {
      var front := ms[..|ms| - 1];
      KeptMembers(filter, front);
      assert ms == front + [ms[|ms| - 1]];
    }
  }

  /** Without a filter every message is kept. */
  lemma {:induction false} KeptWithoutFilter(ms: seq<Message>)
    ensures Kept(None, ms) == ms
  {
    if ms != [] {
      KeptWithoutFilter(ms[..|ms| - 1]);
      assert ms[..|ms| - 1] + [ms[|ms| - 1]] == ms;
    }
  }

  // ---------------------------------------------------------------------------------------
  // export's failure count

  /** The number of false results. */
  function Failures(results: seq<bool>): nat
  {
    multiset(results)[false]
  }

  /** There is no failure exactly when every result is true, and never more failures than
      results. */
  lemma {:induction false} FailuresCount(results: seq<bool>)
    ensures Failures(results) == 0 <==> forall i :: 0 <= i < |results| ==> results[i]
    ensures Failures(results) <= |results|
  {
    if results != [] {
      var front := results[..|results| - 1];
      FailuresCount(front);
      assert results == front + [results[|results| - 1]];
      assert multiset(results) == multiset(front) + multiset{results[|results| - 1]};
      if forall i :: 0 <= i < |front| ==> front[i] {
        if results[|results| - 1] {
          assert forall i :: 0 <= i < |results| ==> results[i] by {
            forall i | 0 <= i < |results|
              ensures results[i]
            {
              if i < |front| {
                assert results[i] == front[i];
              }
            }
          }
        }
      } else {
        var j :| 0 <= j < |front| && !front[j];
        assert results[j] == front[j];
      }
    }
  }

  /** The summary export() throws when some results are false. */
  function SummaryMessage(failures: nat, total: nat): string
  {
    "Unable to emit batch of log messages to Fluentd: " + NatToString(failures)
      + " failed message(s) out of " + NatToString(total) + " total."
  }

  const WrapPrefix := "Caught exception while attempting to export log messages to Fluentd: "

  /** What export() throws for an exception from the client: a LogRuntimeException passes
      through, any other exception is wrapped as the previous exception of a new one. */
  function Translate(e: Exception): (t: Exception)
    ensures t.LogRuntime?
    ensures e.LogRuntime? ==> t == e
    ensures e.Plain? ==> t.message == WrapPrefix + e.message && t.code == 0 && t.previous == Some(e)
  {
    match e
    case LogRuntime(_, _, _) => e
    case Plain(message, _) => LogRuntime(WrapPrefix + message, 0, Some(e))
  }

  /** The arguments of a call to the client's emitBatch(): tag, records, timestamp. */
  datatype BatchCall = BatchCall(tag: string, records: seq<Record>, timestamp: Option<int>)

  /** The client's emitBatch(): one flag per record, or an exception. */
  type BatchClient = BatchCall -> Result<seq<bool>>

  /** BaseFluentClient as export() uses it: the formatted records keyed by their position,
      and emitBatch()'s results without their keys. */
  function Indexed(records: seq<Record>): (r: FluentClient.Records<nat, Record>)
    ensures |r| == |records| && forall i :: 0 <= i < |r| ==> r[i] == (i, records[i])
  {
    seq(|records|, i requires 0 <= i < |records| => (i, records[i]))
  }

  function Flags<K>(results: seq<(K, bool)>): (flags: seq<bool>)
    ensures |flags| == |results| && forall i :: 0 <= i < |flags| ==> flags[i] == results[i].1
  {
    seq(|results|, i requires 0 <= i < |results| => results[i].1)
  }

  function EmitterReply(call: BatchCall, size: nat, perPost: nat, post: FluentClient.PostOracle<nat, Record>)
    : Result<seq<bool>>
    requires size >= 1
  {
    match FluentClient.BatchOutcome(call.tag, Indexed(call.records), call.timestamp, size, perPost, post)
    case Success(results) => Success(Flags(results))
    case Failure(e) => Failure(e)
  }

  /** Over BaseFluentClient, a batch whose every post is delivered leaves export() nothing to
      count. */
  lemma DeliveredBatchHasNoFailures(call: BatchCall, size: nat, perPost: nat,
                                    post: FluentClient.PostOracle<nat, Record>)
    requires size >= 1 && FluentClient.OnePerItem(post)
    requires var plan := FluentClient.Plan(Indexed(call.records), size, perPost);
      forall j :: 0 <= j < |plan| ==> FluentClient.Succeeded(post(j, FluentClient.CallOf(call.tag, plan[j], call.timestamp)))
    ensures EmitterReply(call, size, perPost, post).Success?
    ensures Failures(EmitterReply(call, size, perPost, post).value) == 0
  {
    FluentClient.AllPostsSucceed(call.tag, Indexed(call.records), call.timestamp, size, perPost, post);
    var flags := EmitterReply(call, size, perPost, post).value;
    assert forall i :: 0 <= i < |flags| ==> flags[i];
    FailuresCount(flags);
  }

  /** Over BaseFluentClient, a batch that stopped before slicing every record makes export()
      count a failure, and so throw: the records never sent come back false. */
  lemma UnsentRecordsAreFailures(call: BatchCall, size: nat, perPost: nat,
                                 post: FluentClient.PostOracle<nat, Record>)
    requires size >= 1
    requires EmitterReply(call, size, perPost, post).Success?
    requires var plan := FluentClient.Plan(Indexed(call.records), size, perPost);
      |FluentClient.Concat(FluentClient.Concat(plan[..FluentClient.PostsMade(call.tag, call.timestamp, plan, post, 0)]))|
        < |call.records|
    ensures Failures(EmitterReply(call, size, perPost, post).value) > 0
  {
    var records := Indexed(call.records);
    var plan := FluentClient.Plan(records, size, perPost);
    var k := FluentClient.PostsMade(call.tag, call.timestamp, plan, post, 0);
    var last := |call.records| - 1;
    FluentClient.UnsentRecordsFail(call.tag, records, call.timestamp, size, perPost, post, last);
    var flags := EmitterReply(call, size, perPost, post).value;
    assert !flags[last];
    FailuresCount(flags);
  }

  // ---------------------------------------------------------------------------------------
  // FluentTarget

  class FluentTarget {
    /** The tag of every batch. */
    var tag: string
    /** Whether an array text is merged into the record instead of going under `message`. */
    var mergeArrayMessage: bool
    /** Whether an exception is shown by its details instead of its string rendering. */
    var formatExceptionAsArray: bool
    var suffix: Suffix
    var filter: Option<Message -> bool>
    /** getMessagePrefix(): the keys every record starts with. */
    var prefix: Message -> Record
    /** Logger::getLevelName(): the name of a level. */
    var levelName: int -> string
    /** The keys removed from every record. */
    var hideKeys: set<string>
    /** The messages collected for the next export. */
    var messages: seq<Message>

    constructor (tag: string, mergeArrayMessage: bool, formatExceptionAsArray: bool, suffix: Suffix,
                 filter: Option<Message -> bool>, prefix: Message -> Record, levelName: int -> string)
      ensures this.tag == tag && this.mergeArrayMessage == mergeArrayMessage
      ensures this.formatExceptionAsArray == formatExceptionAsArray && this.suffix == suffix
      ensures this.filter == filter && this.prefix == prefix && this.levelName == levelName
      ensures hideKeys == {} && messages == []
    {
      this.tag := tag;
      this.mergeArrayMessage := mergeArrayMessage;
      this.formatExceptionAsArray := formatExceptionAsArray;
      this.suffix := suffix;
      this.filter := filter;
      this.prefix := prefix;
      this.levelName := levelName;
      hideKeys := {};
      messages := [];
    }

    /** The data formatMessage() hands to the suffix: the prefix, then the standard keys, then
        the text's keys, each overriding the one before. */
    function Formatted(m: Message): Record
      reads this
    {
      prefix(m) + Standard(m, levelName(m.level))
        + TextEntries(TextValue(m.text, formatExceptionAsArray), mergeArrayMessage)
    }

    /** The data once the suffix is applied and before the hidden keys are removed. */
    function Suffixed(m: Message): Record
      reads this
    {
      ApplySuffix(suffix, m, Formatted(m))
    }

    /** formatMessage(): the record for a message. The hidden keys are merged in last as unset
        markers, so the record is the suffixed data without them, whatever the suffix did. */
    function FormatMessage(m: Message): (r: Record)
      reads this
      ensures r == Suffixed(m) - hideKeys
      ensures forall k :: k in hideKeys ==> k !in r
    {
      MergeUnsets(Suffixed(m), hideKeys);
      Merge(Suffixed(m), Unsets(hideKeys))
    }

    /** A text that is not merged goes under `message`, unless the suffix or the hidden keys
        touch that key. */
    lemma TextUnderMessage(m: Message)
      requires !mergeArrayMessage || !TextValue(m.text, formatExceptionAsArray).Arr?
      requires suffix.Patch? && "message" !in suffix.entries && "message" !in hideKeys
      ensures "message" in FormatMessage(m)
      ensures FormatMessage(m)["message"] == TextValue(m.text, formatExceptionAsArray)
    {
    }

    /** With mergeArrayMessage, each key of an array text appears at the top level of the
        record, unless the suffix or the hidden keys touch it. */
    lemma ArrayKeysAtTopLevel(m: Message, k: string)
      requires mergeArrayMessage && m.text.Data? && m.text.value.Arr? && k in m.text.value.entries
      requires suffix.Patch? && k !in suffix.entries && k !in hideKeys
      ensures k in FormatMessage(m) && FormatMessage(m)[k] == m.text.value.entries[k]
    {
    }

    /** The timestamp, level name and category are in every record unless the text's keys, the
        suffix or the hidden keys touch them. */
    lemma StandardKeys(m: Message)
      requires suffix.Patch?
      requires forall k :: k in {"timestamp", "level", "category"} ==>
        k !in TextEntries(TextValue(m.text, formatExceptionAsArray), mergeArrayMessage) &&
        k !in suffix.entries && k !in hideKeys
      ensures var r := FormatMessage(m);
        "timestamp" in r && r["timestamp"] == m.timestamp &&
        "level" in r && r["level"] == Str(levelName(m.level)) &&
        "category" in r && r["category"] == Str(m.category)
    {
      var text := TextEntries(TextValue(m.text, formatExceptionAsArray), mergeArrayMessage);
      assert "timestamp" !in text && "level" !in text && "category" !in text;
    }

    /** A callable suffix gets the raw message and the formatted data, and what it returns
        replaces the data; only the hidden keys are removed from it afterwards. */
    lemma CallbackReplaces(m: Message)
      requires suffix.Callback?
      ensures FormatMessage(m) == suffix.f(m, Formatted(m)) - hideKeys
    {
    }

    /** A key the suffix array unsets is in no record. */
    lemma SuffixUnsets(m: Message, k: string)
      requires suffix.Patch? && k in suffix.entries && suffix.entries[k].Unset?
      ensures k !in FormatMessage(m)
    {
    }

    /** setHideKeys(): the hidden keys become exactly the given keys, replacing those hidden
        before. */
    method SetHideKeys(keys: seq<string>)
      modifies this`hideKeys
      ensures hideKeys == set k | k in keys
    {
      hideKeys := {};
      for i := 0 to |keys|
        invariant hideKeys == set k | k in keys[..i]
      {
        assert keys[..i + 1] == keys[..i] + [keys[i]];
        hideKeys := hideKeys + {keys[i]};
      }
      assert keys[..|keys|] == keys;
    }

    /** records are the records of the messages ms, one for one. */
    ghost predicate RecordsOf(records: seq<Record>, ms: seq<Message>)
      reads this
    {
      |records| == |ms| && forall j :: 0 <= j < |records| ==> records[j] == FormatMessage(ms[j])
    }

    lemma RecordsOfAppend(records: seq<Record>, ms: seq<Message>, m: Message)
      requires RecordsOf(records, ms)
      ensures RecordsOf(records + [FormatMessage(m)], ms + [m])
    {
      var rs, ns := records + [FormatMessage(m)], ms + [m];
      forall j | 0 <= j < |rs|
        ensures rs[j] == FormatMessage(ns[j])
      {
        if j < |records| {
          assert rs[j] == records[j] && ns[j] == ms[j];
        }
      }
    }

    /** getFormattedMessages(): the records of the messages the filter accepts, in order. */
    method GetFormattedMessages() returns (formatted: seq<Record>)
      ensures |formatted| == |Kept(filter, messages)|
      ensures forall i :: 0 <= i < |formatted| ==> formatted[i] == FormatMessage(Kept(filter, messages)[i])
    {
      formatted := [];
      for i := 0 to |messages|
        invariant RecordsOf(formatted, Kept(filter, messages[..i]))
      {
        var message := messages[i];
        KeptStep(filter, messages, i);
        // a configured filter that rejects the message leaves it out
        if filter.Some? && !filter.value(message) {
          continue;
        }
        RecordsOfAppend(formatted, Kept(filter, messages[..i]), message);
        formatted := formatted + [FormatMessage(message)];
      }
      assert messages[..|messages|] == messages;
    }

    /** export(): send the records of the accepted messages to the client in one emitBatch()
        call without a timestamp, count the false results, and throw when there are any; an
        exception from the client is translated. `call` is the emitBatch() call made. */
    method Export(client: BatchClient) returns (thrown: Option<Exception>, call: BatchCall)
      ensures call.tag == tag && call.timestamp == None
      ensures |call.records| == |Kept(filter, messages)|
      ensures forall i :: 0 <= i < |call.records| ==>
        call.records[i] == FormatMessage(Kept(filter, messages)[i])
      ensures client(call).Failure? ==> thrown == Some(Translate(client(call).error))
      ensures client(call).Success? ==>
        (thrown.Some? <==> exists i :: 0 <= i < |client(call).value| && !client(call).value[i])
      ensures client(call).Success? && thrown.Some? ==>
        thrown.value == LogRuntime(SummaryMessage(Failures(client(call).value), |call.records|), 0, None)
    {
      var records := GetFormattedMessages();
      call := BatchCall(tag, records, None);
      match client(call)
      case Failure(e) =>
        if e.LogRuntime? {
          // a LogRuntime exception is rethrown unchanged
          thrown := Some(e);
        } else {
          // any other exception is wrapped, keeping it as the previous one
          thrown := Some(LogRuntime(WrapPrefix + e.message, 0, Some(e)));
        }
      case Success(results) =>
        var failures := 0;
        for i := 0 to |results|
          invariant failures == Failures(results[..i])
        {
          assert results[..i + 1] == results[..i] + [results[i]];
          if !results[i] {
            failures := failures + 1;
          }
        }
        assert results[..|results|] == results;
        FailuresCount(results);
        if failures > 0 {
          thrown := Some(LogRuntime(SummaryMessage(failures, |records|), 0, None));
        } else {
          thrown := None;
        }
    }
  }
}
