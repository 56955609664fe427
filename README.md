# yii2-fluentd: the batching, transport and export core, in Dafny

yii2-fluentd ships yii log messages to a Fluentd HTTP input. This project models three parts of it
and proves properties about each one.

- **Batch emitter** (`FluentClient`, `fluent_client.dfy`).
  - `BaseFluentClient::emitBatch` slices an ordered, keyed array of records into chunks of at
    most `batchSize` records.
  - It groups the chunks into posts of at most `batchesPerPost` chunks. Each post is one call to
    the transport.
  - It fans each chunk's flag out to every key of the chunk.
  - After the first post that reports a failure, it stops and reports every record not yet
    sliced as failed.
  - `emit` posts one record on its own.
  - The transport `post()` is an oracle: the reply to the n-th call made with given arguments.
- **Transport** (`HttpTransport`, `http_transport.dfy`).
  - `FireForgetHttpFluentClient::post` opens one connection and writes one HTTP/1.1 POST request
    per item.
  - Each request is written with `writeStream`. That is an `fwrite` loop which gives up after
    `writeRetries` consecutive writes that make no progress.
  - An item is true exactly when its whole request was written. After the first short write,
    the later items are false and are not written.
  - The result of the connection attempt is a parameter. So is the sequence of byte counts that
    `fwrite` reports for each request, where 0 stands for a failed write.
  - The request text (request line, `Host`, `Content-Type`, `Content-Length`, `Connection`) is a
    pure function. It is read back the way a receiver reads it: the head line by line up to the
    empty line (section 2.2 of RFC 9112), then the body by its Content-Length (section 6.2).
- **Log target** (`LogTarget`, `log_target.dfy`).
  - `FluentTarget` is a class whose fields are the target's configuration, its hidden keys and
    its collected messages.
  - `formatMessage` builds a record from the prefix, the standard keys, the text and the suffix,
    and removes the hidden keys last.
  - `getFormattedMessages` keeps the messages the filter accepts, in order.
  - `setHideKeys` replaces the hidden keys.
  - `export` makes one `emitBatch` call, counts the false results and throws one
    LogRuntimeException when there are any. It passes a LogRuntimeException from the client
    through unchanged and wraps any other exception.
- **Shared pieces** (`outcomes.dfy`).
  - `Outcomes` holds optional values, the two kinds of exception, and results.
  - `Arith` holds the smaller and the larger of two integers.
  - `Decimal` renders integers the way PHP's string conversion does.

Two behaviours of the source are kept as written:

- **`Connection: Close` on single-item posts only.** `post()` decides the `Connection` header
  with a counter `$i` that is never advanced. So `Connection: Close` is sent only when a post
  carries a single item, and every request of a longer post says `Keep-Alive`.
  `HttpTransport.Post` builds each request with `isLast := (i == |items| - 1)` and `i` fixed
  at 0.
- **Early flush.** `emitBatch` flushes when `$r >= count($records) - 1`. This fires one chunk
  early when exactly one record remains. For example, 5 records with `batchSize` 2 and
  `batchesPerPost` 10 take two posts. `FluentClient.Plan` keeps this test, and
  `FluentClient.FiveRecordsFlushEarly` proves the example.

## Model

| member | source | states |
|---|---|---|
| FluentClient.Emit | src/BaseFluentClient.php:46-50 | exactly one post() call, whose only item is the bare record; the result is the first flag of the reply, and an exception from post() propagates |
| FluentClient.EmitBatch | src/BaseFluentClient.php:55-110 | the calls made are the first PostsMade planned posts, in order, with the caller's tag and timestamp; the result is BatchOutcome: the fanned-out flags of the posts made, then false for every record never sliced, or the exception of the post that threw |
| FluentClient.CollectResults | src/BaseFluentClient.php:82-90 | the entries are each chunk's flag fanned out to the chunk's keys, and failureOccurred holds exactly when some flag is false |
| FluentClient.ChunksShape | src/BaseFluentClient.php:68-74 | the chunks concatenate back to the records; every chunk has between 1 and batchSize records, and every chunk but the last is full |
| FluentClient.PlanShape | src/BaseFluentClient.php:68-106 | the posts carry the chunks in order, and so all the records in order; every post has between 1 and max(1, batchesPerPost) chunks |
| FluentClient.PlanPrefix | src/BaseFluentClient.php:68-100 | the records carried by the first k posts are a prefix of the records |
| FluentClient.OneChunkOnePost | src/BaseFluentClient.php:68-79 | records that fit in one chunk make a single post of a single chunk |
| FluentClient.EightRecordsTwoPosts | src/BaseFluentClient.php:68-106 | 8 records with batchSize 2 and batchesPerPost 2 make two posts of two chunks each |
| FluentClient.FiveRecordsFlushEarly | src/BaseFluentClient.php:78 | 5 records with batchSize 2 and batchesPerPost 10 make two posts, because the end-of-records test flushes when one record remains |
| FluentClient.Mark | src/BaseFluentClient.php:95-98 | the keys of the records, each mapped to the given flag |
| FluentClient.FanOutKeys | src/BaseFluentClient.php:82-86 | fanning out keeps exactly the keys of the chunks, in order |
| FluentClient.FanOutAt | src/BaseFluentClient.php:82-86 | record k of chunk i is reported with the i-th flag of the reply |
| FluentClient.FanOutOnlyUsesOwnFlags | src/BaseFluentClient.php:82-86 | flags beyond the chunks posted do not change the fanned-out results |
| FluentClient.FanOutAllTrue | src/BaseFluentClient.php:82-86 | a reply of all true flags reports every key of the chunks true |
| FluentClient.DeliveredKeys | src/BaseFluentClient.php:78-90 | the results of the posts made carry exactly the keys of the records those posts carried |
| FluentClient.DeliveredAllTrue | src/BaseFluentClient.php:78-90 | posts that all reply all true report every record they carried true |
| FluentClient.PostsMadeStops | src/BaseFluentClient.php:87-100 | every post before the last one made succeeded; a post is made while any is planned; fewer posts than planned means the last one made failed |
| FluentClient.BatchLoopOnPlan | src/BaseFluentClient.php:68-109 | the loop, run from any state on the plan, ends with BatchOutcome and the planned calls up to the first failure |
| FluentClient.AllPostsSucceed | src/BaseFluentClient.php:68-109 | when every planned post succeeds, all of them are made and every key maps to true |
| FluentClient.BatchOutcomeKeys | src/BaseFluentClient.php:70-98 | the result carries exactly the keys of the records, in order, with none added, dropped or duplicated |
| FluentClient.UnsentRecordsFail | src/BaseFluentClient.php:92-99 | every record after the last sliced chunk maps to false |
| FluentClient.EmptyBatch | src/BaseFluentClient.php:68-109 | an empty array of records makes no post and gives an empty result |
| HttpTransport.WriteStream | src/FireForgetHttpFluentClient.php:112-138 | the loop stops at the first moment it may, either with the whole string written or after writeRetries failed writes in a row, and returns the bytes written by then; each fwrite() gets the unwritten rest of the string |
| HttpTransport.Accepted | src/FireForgetHttpFluentClient.php:116-135 | the bytes written never exceed the string's length |
| HttpTransport.ProgressStep | src/FireForgetHttpFluentClient.php:121-134 | a failed write lengthens the run of failures and a write that makes progress ends it, resetting the retry budget |
| HttpTransport.AcceptedIsCappedSum | src/FireForgetHttpFluentClient.php:116-135 | the bytes written are the sum of what fwrite() reported, capped at the string's length |
| HttpTransport.WriteResultShape | src/FireForgetHttpFluentClient.php:112-138 | the result is the capped sum of the write results; a short result comes only after writeRetries consecutive failed writes |
| HttpTransport.NoRetriesNoWrite | src/FireForgetHttpFluentClient.php:114-116 | with writeRetries 0 no write is attempted and the result is 0 |
| HttpTransport.WriteResultUnique | src/FireForgetHttpFluentClient.php:112-138 | the result and the number of calls are determined by the string's length, the budget and the write results |
| HttpTransport.OneCallSuffices | src/FireForgetHttpFluentClient.php:116-135 | a string whose first write goes through entirely takes one call |
| HttpTransport.Target | src/FireForgetHttpFluentClient.php:71 | the target is "/" and the tag, with "?time=" and the timestamp only when the timestamp is truthy |
| HttpTransport.RequestLayout | src/FireForgetHttpFluentClient.php:71-79 | when the tag, host and content type hold no CR or LF, a receiver reading the head up to its first empty line gets the request line and the four header lines, and what follows is exactly the payload (then whatever comes after it on the connection) |
| HttpTransport.ReadJoined | src/FireForgetHttpFluentClient.php:71-78 | head lines written one per line with CRLF and closed by an empty line are read back by the receiver as exactly those lines, followed by the rest of the stream |
| HttpTransport.FieldsLookup | src/FireForgetHttpFluentClient.php:72-78 | the values of Host, Content-Type, Content-Length and Connection, with Close exactly for the last request |
| HttpTransport.ContentLengthFramesPayload | src/FireForgetHttpFluentClient.php:75-79 | with Content-Length taken from the serialized payload, a receiver that reads the head and then the declared body gets exactly the payload, whatever follows it |
| HttpTransport.AsWrittenContentLengthWrong | src/FireForgetHttpFluentClient.php:77 | as written, the head declares Content-Length 0, so a receiver that reads the head and then the declared body reads an empty body and never the payload |
| HttpTransport.Post | src/FireForgetHttpFluentClient.php:53-99 | a refused connection throws with the host, port and error text and writes nothing; otherwise one flag per item, true exactly when the item's request was written in full; requests are written in order, and none after the first short write |
| Decimal.NatToString | src/FireForgetHttpFluentClient.php:77 | a non-empty string of decimal digits without a leading zero |
| Decimal.ParseNatToString | src/FireForgetHttpFluentClient.php:77 | reading the rendered digits back gives the number |
| LogTarget.Merge | src/FluentTarget.php:161-169 | a patch entry overrides its key, an unset marker removes it, and the data's other keys are kept |
| LogTarget.MergeUnsets | src/FluentTarget.php:169 | merging unset markers deletes exactly their keys |
| LogTarget.MergePuts | src/FluentTarget.php:151-161 | merging plain values overrides the data with them |
| LogTarget.TextValue | src/FluentTarget.php:130-147 | an exception becomes an array with the one key `exception`, holding its string rendering or, with formatExceptionAsArray, its details; any other text is kept |
| LogTarget.TextEntries | src/FluentTarget.php:157-161 | an array text with mergeArrayMessage contributes its own keys; any other text goes under `message` |
| LogTarget.Standard | src/FluentTarget.php:151-155 | the keys timestamp, level (the level's name) and category |
| LogTarget.Kept | src/FluentTarget.php:230-236 | the filter never adds messages |
| LogTarget.KeptAppend | src/FluentTarget.php:227-240 | filtering keeps the order of the messages |
| LogTarget.KeptMembers | src/FluentTarget.php:227-240 | a message is kept exactly when it is collected and the filter accepts it |
| LogTarget.KeptWithoutFilter | src/FluentTarget.php:231 | without a filter every message is kept |
| LogTarget.FailuresCount | src/FluentTarget.php:104-111 | there are no failures exactly when every result is true, and never more failures than results |
| LogTarget.Translate | src/FluentTarget.php:114-120 | a LogRuntimeException passes through unchanged; any other exception becomes a LogRuntimeException with the fixed prefix before its message, code 0, and the original as its previous exception |
| LogTarget.DeliveredBatchHasNoFailures | src/FluentTarget.php:102-111 | with BaseFluentClient as the client, a batch whose posts all succeed leaves no failure to count |
| LogTarget.UnsentRecordsAreFailures | src/FluentTarget.php:102-113 | with BaseFluentClient as the client, a batch that stopped before slicing every record counts a failure, so export throws |
| LogTarget.FluentTarget.constructor | src/FluentTarget.php:30-77 | a target with the given configuration, no hidden keys and no messages |
| LogTarget.FluentTarget.FormatMessage | src/FluentTarget.php:126-170 | the record is the suffixed data without the hidden keys; no hidden key is in any record, even one the suffix added |
| LogTarget.FluentTarget.TextUnderMessage | src/FluentTarget.php:157-161 | a text that is not merged is the value under `message` unless the suffix or the hidden keys touch that key |
| LogTarget.FluentTarget.ArrayKeysAtTopLevel | src/FluentTarget.php:157-161 | with mergeArrayMessage, every key of an array text is at the top level of the record |
| LogTarget.FluentTarget.StandardKeys | src/FluentTarget.php:151-155 | timestamp, level name and category are in the record unless the text, the suffix or the hidden keys touch them |
| LogTarget.FluentTarget.CallbackReplaces | src/FluentTarget.php:163-164 | a callable suffix gets the raw message and the formatted data, and its result, less the hidden keys, is the record |
| LogTarget.FluentTarget.SuffixUnsets | src/FluentTarget.php:165-166 | a key the suffix array unsets is in no record |
| LogTarget.FluentTarget.SetHideKeys | src/FluentTarget.php:214-220 | the hidden keys become exactly the given keys, replacing the previous ones |
| LogTarget.FluentTarget.GetFormattedMessages | src/FluentTarget.php:227-240 | the records of exactly the messages the filter accepts, in order |
| LogTarget.FluentTarget.Export | src/FluentTarget.php:99-121 | one emitBatch() call with the tag, the formatted messages and no timestamp; it throws exactly when some result is false, with the number of false results and the number of records in the message; client exceptions are translated |

## Left out

- Socket I/O is not modelled: `fsockopen`, `fwrite`, the `feof`/`fread` drain loop and `fclose`. The connection attempt and the write results are parameters, and the drain has no result.
- `usleep` between retries and `error_log` on giving up are not modelled; they have no effect on the results.
- The `@` error suppression on all but the last retry is not modelled. Under yii's error handler an unsuppressed warning becomes an ErrorException, so a warning from the last `fwrite()` would escape `writeStream()` and `post()`; here every write reports a byte count.
- Serialization (`Json::encode` or a configured serializer) is a parameter of `HttpTransport.Post`.
- `getMessagePrefix` reads the request, the user, the session and `$GLOBALS`. The prefix is a field of the target holding a function of the message.
- `Logger::getLevelName` is not part of this model. The level name is a field of the target holding a function of the level.
- LogTarget.Merge: merges at the top level only. `ArrayHelper::merge` also merges nested arrays recursively, appends integer keys and honours `ReplaceArrayValue`; those are not modelled.
- Arrays in records are keyed by strings only, and the order of a record's keys is not modelled: records are maps.
- Exception reflection (class, file, line, trace) is not modelled. An exception text carries its rendering and its details as given.
- A filter, a suffix callable or a prefix callable that throws is not modelled. These callables are total functions here.
- A PHP `Error` throwable is not modelled. Only exceptions are caught by `export`.
- `FluentTarget::init` and its dependency-injection wiring are not modelled; it is configuration only.
- The console RPC controller is not modelled.
- FluentClient.EmitBatch: requires batchSize ≥ 1. With 0, `array_slice` returns nothing and the loop never advances.
- HttpTransport.WriteStream: takes writeRetries as a natural number. A negative budget is truthy and, being only decremented, never reaches 0, so the loop would run until the string is written.
- FluentClient.EmitBatch: `$results +=` is array union. It is modelled as concatenation, which gives the same result when the records' keys are distinct, as a PHP array's keys always are. Records are a sequence of key/record pairs and the model does not enforce distinct keys; with a repeated key it reports one flag per pair where PHP keeps one per key.
- FluentClient.EmitBatch: requires post() to return one flag per item, which is its documented contract.
- HttpTransport.Post: writes the corrected request (`Request`), whose Content-Length is the length of the serialized item. The source as written declares 0 (`RequestAsWritten`), so its request text, the length a full write is measured against, and what a receiver reads differ from the modelled ones; the flags still follow the same rule, true exactly when the whole request text was written.
- Timestamps are integers or absent (`Option<int>`). A float timestamp, which the client interface allows, is not modelled: neither its rendering in `?time=` (such as `1.5`) nor `0.0` being falsy.
- Strings stand for PHP byte strings, one character per byte, so `|s|` is `strlen()` and the counts that `fwrite()` reports are counts of characters. Multi-byte encodings are not modelled.

## Findings

| source | as written | input that shows it | evidently intended | confidence | as-written member | corrected member |
|---|---|---|---|---|---|---|
| src/FireForgetHttpFluentClient.php:77 | `Content-Length` is `strlen($encoded)`, but `$encoded` is never assigned, so every request declares a body of 0 bytes. Under yii's error handler, reading the undefined `$encoded` raises a warning that becomes an ErrorException, so `post()` would throw before writing anything; the row describes PHP without that handler, where the length is 0 | any item whose serialization is non-empty, e.g. `{}`: the request says `Content-Length: 0` and a receiver that frames by Content-Length reads an empty body | `strlen($serialized)`, the length of the payload written after the head | not executed | HttpTransport.AsWrittenContentLengthWrong | HttpTransport.ContentLengthFramesPayload |
