/** The transport of FireForgetHttpFluentClient: every item handed to post() goes out as one
    HTTP/1.1 POST request over a single connection, written with writeStream(), a write loop
    that retries a write that makes no progress. Connecting and each fwrite() are oracles: the
    connection attempt is a parameter, and the results of one writeStream()'s fwrite() calls
    are a sequence of byte counts where 0 stands for a failed write. */
module HttpTransport {
  import opened Outcomes
  import opened Decimal
  import opened Arith
  import FluentClient

  // ---------------------------------------------------------------------------------------
  // writeStream

  /** What fwrite() reports for the j-th call of one writeStream(): a byte count, 0 for a
      failed (false) or empty write. Calls beyond the oracle's sequence fail. */
  function Attempt(writes: seq<nat>, j: nat): nat
  {
    if j < |writes| then writes[j] else 0
  }

  /** The bytes of an n-byte string written after c calls: each call writes what fwrite()
      reports, and never more than the unwritten rest it was given. */
  function Accepted(writes: seq<nat>, n: nat, c: nat): (a: nat)
    ensures a <= n
  {
    if c == 0 then 0
    else
      var before := Accepted(writes, n, c - 1);
      before + Min(Attempt(writes, c - 1), n - before)
  }

  /** The sum of what the first c calls report. */
  function AttemptSum(writes: seq<nat>, c: nat): nat
  {
    if c == 0 then 0 else AttemptSum(writes, c - 1) + Attempt(writes, c - 1)
  }

  /** The last k of the first c calls all failed. */
  ghost predicate FailedRun(writes: seq<nat>, c: nat, k: nat)
  {
    k <= c && forall j :: c - k <= j < c ==> Attempt(writes, j) == 0
  }

  /** writeStream() may stop after c calls: the whole string is written, or the last retries
      calls failed in a row. */
  ghost predicate Finished(writes: seq<nat>, n: nat, retries: nat, c: nat)
  {
    Accepted(writes, n, c) == n || FailedRun(writes, c, retries)
  }

  /** writeStream() made `calls` calls and returned `written`: it stopped at the first moment it
      may stop, and returns the bytes written by then. */
  ghost predicate WriteResult(writes: seq<nat>, n: nat, retries: nat, written: nat, calls: nat)
  {
    written == Accepted(writes, n, calls) &&
    Finished(writes, n, retries, calls) &&
    forall c :: 0 <= c < calls ==> !Finished(writes, n, retries, c)
  }

  /** A run of failed calls that is not preceded by another failure cannot have reached the
      retry budget unless it is that long. */
  lemma RunBelowBudget(writes: seq<nat>, c: nat, run: nat, retries: nat)
    requires run < retries && run <= c
    requires run < c ==> Attempt(writes, c - run - 1) > 0
    ensures !FailedRun(writes, c, retries)
  {
    if retries <= c {
      assert Attempt(writes, c - run - 1) > 0;
    }
  }

  /** What the write loop knows after c calls: `written` bytes are out, the last `run` calls
      failed (and the one before them, if any, did not), and it could not have stopped
      earlier. */
  ghost predicate Progress(writes: seq<nat>, n: nat, retries: nat, c: nat, written: nat, run: nat)
  {
    run <= retries &&
    written == Accepted(writes, n, c) &&
    FailedRun(writes, c, run) &&
    (run < c ==> Attempt(writes, c - run - 1) > 0) &&
    forall c' :: 0 <= c' < c ==> !Finished(writes, n, retries, c')
  }

  /** One more call of the write loop: a failed write lengthens the run of failures, a write
      that makes progress ends it. */
  lemma ProgressStep(writes: seq<nat>, n: nat, retries: nat, c: nat, written: nat, run: nat, a: nat)
    requires Progress(writes, n, retries, c, written, run)
    requires written < n && run < retries
    requires a == Min(Attempt(writes, c), n - written)
    ensures a == 0 ==> Progress(writes, n, retries, c + 1, written, run + 1)
    ensures a > 0 ==> Progress(writes, n, retries, c + 1, written + a, 0)
  {
    RunBelowBudget(writes, c, run, retries);
    assert !Finished(writes, n, retries, c);
    if a == 0 {
      assert FailedRun(writes, c + 1, run + 1);
    }
  }

  /** The write loop stops exactly when it may. */
  lemma ProgressStops(writes: seq<nat>, n: nat, retries: nat, c: nat, written: nat, run: nat)
    requires Progress(writes, n, retries, c, written, run)
    requires written == n || run == retries
    ensures WriteResult(writes, n, retries, written, c)
  {
  }

  /** Each of the strings handed to fwrite() is the part of s not yet written at the time. */
  ghost predicate Handed(s: string, writes: seq<nat>, attempts: seq<string>)
  {
    forall j :: 0 <= j < |attempts| ==> attempts[j] == s[Accepted(writes, |s|, j)..]
  }

  lemma HandedStep(s: string, writes: seq<nat>, attempts: seq<string>, written: nat)
    requires Handed(s, writes, attempts)
    requires written == Accepted(writes, |s|, |attempts|)
    ensures Handed(s, writes, attempts + [s[written..]])
  {
    var next := attempts + [s[written..]];
    forall j | 0 <= j < |next|
      ensures next[j] == s[Accepted(writes, |s|, j)..]
    {
      if j < |attempts| {
        assert next[j] == attempts[j];
      }
    }
  }

  /** writeStream(): write s until all of it is written, retrying a write that makes no
      progress up to retries times in a row; a write that makes progress restores the full
      retry budget. Returns the bytes written. `attempts` are the strings handed to fwrite(). */
  method WriteStream(s: string, retries: nat, writes: seq<nat>)
    returns (written: nat, calls: nat, ghost attempts: seq<string>)
    ensures WriteResult(writes, |s|, retries, written, calls)
    ensures |attempts| == calls
    ensures forall j :: 0 <= j < calls ==> attempts[j] == s[Accepted(writes, |s|, j)..]
  {
    var retriesRemaining: nat := retries;
    written := 0;
    calls := 0;
    attempts := [];
    while written < |s| && retriesRemaining != 0
      invariant retriesRemaining <= retries
      invariant Progress(writes, |s|, retries, calls, written, retries - retriesRemaining)
      invariant |attempts| == calls && Handed(s, writes, attempts)
      decreases |s| - written, retriesRemaining
    {
      var rest := s[written..];
      var result := Min(Attempt(writes, calls), |rest|);
      ghost var run := retries - retriesRemaining;
      ProgressStep(writes, |s|, retries, calls, written, run, result);
      HandedStep(s, writes, attempts, written);
      attempts := attempts + [rest];
      calls := calls + 1;
      if result == 0 {
        retriesRemaining := retriesRemaining - 1;
        assert retries - retriesRemaining == run + 1;
        if retriesRemaining != 0 {
          continue;
        } else {
          ProgressStops(writes, |s|, retries, calls, written, retries);
          return;
        }
      }
      // some bytes went out: the failure budget starts over
      retriesRemaining := retries;
      written := written + result;
    }
    ProgressStops(writes, |s|, retries, calls, written, retries - retriesRemaining);
  }

  /** The bytes written after c calls are what the calls reported, capped at the length of
      the string. */
  lemma {:induction false} AcceptedIsCappedSum(writes: seq<nat>, n: nat, c: nat)
    ensures Accepted(writes, n, c) == Min(AttemptSum(writes, c), n)
  {
    if c > 0 {
      AcceptedIsCappedSum(writes, n, c - 1);
    }
  }

  /** writeStream() returns the sum of what its fwrite() calls reported, capped at the length
      of the string; it falls short only after retries failed calls in a row. */
  lemma WriteResultShape(writes: seq<nat>, n: nat, retries: nat, written: nat, calls: nat)
    requires WriteResult(writes, n, retries, written, calls)
    ensures written == Min(AttemptSum(writes, calls), n)
    ensures written < n ==>
      retries <= calls && forall j :: calls - retries <= j < calls ==> Attempt(writes, j) == 0
  {
    AcceptedIsCappedSum(writes, n, calls);
  }

  /** With a retry budget of 0, writeStream() makes no call and writes nothing. */
  lemma NoRetriesNoWrite(writes: seq<nat>, n: nat, written: nat, calls: nat)
    requires WriteResult(writes, n, 0, written, calls)
    ensures calls == 0 && written == 0
  {
    assert Finished(writes, n, 0, 0);
  }

  /** The result of writeStream() is determined by the string's length, the retry budget and
      what fwrite() reports. */
  lemma WriteResultUnique(writes: seq<nat>, n: nat, retries: nat, w1: nat, c1: nat, w2: nat, c2: nat)
    requires WriteResult(writes, n, retries, w1, c1)
    requires WriteResult(writes, n, retries, w2, c2)
    ensures w1 == w2 && c1 == c2
  {
  }

  /** A string whose first write goes through entirely takes one call, whatever the budget
      beyond the first attempt. */
  lemma OneCallSuffices(writes: seq<nat>, n: nat, retries: nat, written: nat, calls: nat)
    requires WriteResult(writes, n, retries, written, calls)
    requires 0 < n && 1 <= retries && 1 <= |writes| && n <= writes[0]
    ensures calls == 1 && written == n
  {
    assert !Finished(writes, n, retries, 0);
    assert Finished(writes, n, retries, 1);
  }

  // ---------------------------------------------------------------------------------------
  // The request text

  /** The request target: "/" and the tag, with "?time=" and the timestamp when the timestamp
      is truthy (present and not 0). */
  function Target(tag: string, timestamp: Option<int>): (t: string)
    ensures |t| > |tag| && t[..1] == "/" && t[1..1 + |tag|] == tag
    ensures timestamp == None || timestamp == Some(0) ==> t == "/" + tag
  {
    "/" + tag +
    match timestamp
    case Some(t) => if t != 0 then "?time=" + IntToString(t) else ""
    case None => ""
  }

  /** A string with no CR and no LF in it, so it stays on one line. */
  predicate NoBreak(s: string)
  {
    forall i :: 0 <= i < |s| ==> s[i] != '\r' && s[i] != '\n'
  }

  /** The request line of section 3 of RFC 9112: method, target and version. */
  function RequestLine(tag: string, timestamp: Option<int>): string
  {
    "POST " + Target(tag, timestamp) + " HTTP/1.1"
  }

  /** The header fields of one request, in the order they are written. */
  function Fields(host: string, contentType: string, length: nat, isLast: bool): seq<(string, string)>
  {
    [("Host", host), ("Content-Type", contentType), ("Content-Length", NatToString(length)),
     ("Connection", if isLast then "Close" else "Keep-Alive")]
  }

  /** A header field as a "name: value" line. */
  function FieldLine(field: (string, string)): string
  {
    field.0 + ": " + field.1
  }

  /** Header fields as lines, one per field and in order. */
  function FieldLines(fields: seq<(string, string)>): (lines: seq<string>)
    ensures |lines| == |fields|
    ensures forall k :: 0 <= k < |fields| ==> lines[k] == FieldLine(fields[k])
  {
    if fields == [] then [] else [FieldLine(fields[0])] + FieldLines(fields[1..])
  }

  /** The lines of a request head: the request line, then one line per header field. */
  function HeadLines(host: string, contentType: string, tag: string, timestamp: Option<int>,
                     length: nat, isLast: bool): seq<string>
  {
    [RequestLine(tag, timestamp)] + FieldLines(Fields(host, contentType, length, isLast))
  }

  /** Lines as they go on the wire, each one ended by CRLF. */
  function Joined(lines: seq<string>): string
  {
    if lines == [] then "" else lines[0] + "\r\n" + Joined(lines[1..])
  }

  /** The value of the first field with the given name. */
  function FieldValue(fields: seq<(string, string)>, name: string): (v: Option<string>)
    ensures v.Some? ==> exists i :: 0 <= i < |fields| && fields[i] == (name, v.value)
  {
    if fields == [] then None
    else if fields[0].0 == name then Some(fields[0].1)
    else FieldValue(fields[1..], name)
  }

  /** The body length the fields declare: the value of Content-Length read as a decimal. */
  function DeclaredLength(fields: seq<(string, string)>): Option<nat>
  {
    match FieldValue(fields, "Content-Length")
    case Some(v) => if IsDigits(v) then Some(ParseNat(v)) else None
    case None => None
  }

  /** The body a receiver reads after the header fields, per section 6.2 of RFC 9112: as many
      bytes as Content-Length declares, out of everything that follows the head on the
      connection (the body and any request after it). */
  function FramedBody(fields: seq<(string, string)>, following: string): Option<string>
  {
    match DeclaredLength(fields)
    case Some(n) => if n <= |following| then Some(following[..n]) else None
    case None => None
  }

  /** One request with the given Content-Length value: the head lines, an empty line and the
      serialized payload. */
  function RequestWithLength(host: string, contentType: string, tag: string, timestamp: Option<int>,
                             length: nat, payload: string, isLast: bool): string
  {
    Joined(HeadLines(host, contentType, tag, timestamp, length, isLast)) + "\r\n" + payload
  }

  /** The request for one item, with Content-Length set to the length of the serialized item. */
  function Request(host: string, contentType: string, tag: string, timestamp: Option<int>,
                   payload: string, isLast: bool): string
  {
    RequestWithLength(host, contentType, tag, timestamp, |payload|, payload, isLast)
  }

  /** The request as the source writes it: Content-Length is taken from a variable that is
      never assigned, whose length is 0. */
  function RequestAsWritten(host: string, contentType: string, tag: string, timestamp: Option<int>,
                            payload: string, isLast: bool): string
  {
    RequestWithLength(host, contentType, tag, timestamp, 0, payload, isLast)
  }

  /** Where a receiver's line ends: the index of the first CR, or the length when there is none. */
  function FirstCR(s: string): (i: nat)
    ensures i <= |s| && (i < |s| ==> s[i] == '\r')
    ensures forall k :: 0 <= k < i ==> s[k] != '\r'
  {
    if s == [] || s[0] == '\r' then 0 else 1 + FirstCR(s[1..])
  }

  /** How a receiver reads a request head, per section 2.2 of RFC 9112: lines ended by CRLF, up
      to the first empty line. The result is the lines read and what follows the empty line
      on the connection; None when the stream ends first or a CR is not followed by LF. */
  function ReadHead(s: string): Option<(seq<string>, string)>
    decreases |s|
  {
    var i := FirstCR(s);
    if i + 1 >= |s| || s[i + 1] != '\n' then None
    else if i == 0 then Some(([], s[2..]))
    else match ReadHead(s[i + 2..])
      case None => None
      case Some(head) => Some(([s[..i]] + head.0, head.1))
  }

  /** An empty line ends the head; what follows it is the rest of the stream. */
  lemma ReadEmptyLine(rest: string)
    ensures ReadHead("\r\n" + rest) == Some(([], rest))
  {
    var s := "\r\n" + rest;
    assert FirstCR(s) == 0;
    assert s[2..] == rest;
  }

  /** A non-empty first line ended by CRLF is read as one line of the head, and reading goes
      on with the lines after it. */
  lemma ReadOneLine(lines: seq<string>, rest: string)
    requires lines != [] && |lines[0]| > 0 && NoBreak(lines[0])
    ensures ReadHead(Joined(lines) + "\r\n" + rest) ==
      match ReadHead(Joined(lines[1..]) + "\r\n" + rest)
      case None => None
      case Some(head) => Some(([lines[0]] + head.0, head.1))
  {
    var line := lines[0];
    var tail := Joined(lines[1..]) + "\r\n" + rest;
    var s := Joined(lines) + "\r\n" + rest;
    assert s == line + "\r\n" + tail;
    assert s[|line|] == '\r';
    assert FirstCR(s) == |line| by {
      assert forall k :: 0 <= k < |line| ==> s[k] == line[k];
    }
    assert s[..|line|] == line;
    assert s[|line| + 2..] == tail;
  }

  /** Non-empty one-line strings, joined with CRLF and closed by an empty line, read back as
      exactly those lines, followed by the rest of the stream. */
  lemma {:induction false} ReadJoined(lines: seq<string>, rest: string)
    requires forall k :: 0 <= k < |lines| ==> |lines[k]| > 0 && NoBreak(lines[k])
    ensures ReadHead(Joined(lines) + "\r\n" + rest) == Some((lines, rest))
  {
    if lines == [] {
      assert Joined(lines) + "\r\n" + rest == "\r\n" + rest;
      ReadEmptyLine(rest);
    } else {
      ReadJoined(lines[1..], rest);
      ReadOneLine(lines, rest);
      assert [lines[0]] + lines[1..] == lines;
    }
  }

  /** The request line stays on one line when the tag does. */
  lemma RequestLineNoBreak(tag: string, timestamp: Option<int>)
    requires NoBreak(tag)
    ensures NoBreak(RequestLine(tag, timestamp))
  {
    var target := Target(tag, timestamp);
    assert NoBreak(target) by {
      match timestamp
      case Some(t) =>
        var digits := IntToString(t);
        assert NoBreak(digits);
      case None =>
    }
    NoBreakJoin("POST ", target);
    NoBreakJoin("POST " + target, " HTTP/1.1");
  }

  /** Each header field line stays on one line when the host and the content type do. */
  lemma FieldLinesNoBreak(host: string, contentType: string, length: nat, isLast: bool)
    requires NoBreak(host) && NoBreak(contentType)
    ensures var fields := Fields(host, contentType, length, isLast);
      forall k :: 0 <= k < |fields| ==> NoBreak(FieldLine(fields[k]))
  {
    var fields := Fields(host, contentType, length, isLast);
    assert NoBreak(fields[3].1) by {
      if isLast {
        assert NoBreak("Close");
      } else {
        assert NoBreak("Keep-Alive");
      }
    }
    assert NoBreak(fields[2].1);
    assert NoBreak(fields[0].0) && NoBreak(fields[1].0) && NoBreak(fields[2].0) && NoBreak(fields[3].0);
    forall k | 0 <= k < |fields|
      ensures NoBreak(FieldLine(fields[k]))
    {
      NoBreakJoin(fields[k].0, ": ");
      NoBreakJoin(fields[k].0 + ": ", fields[k].1);
    }
  }

  /** Every line of a request head is non-empty and one line, provided the tag, the host and
      the content type contain no line break. */
  lemma HeadLinesAreLines(host: string, contentType: string, tag: string, timestamp: Option<int>,
                          length: nat, isLast: bool)
    requires NoBreak(host) && NoBreak(contentType) && NoBreak(tag)
    ensures var lines := HeadLines(host, contentType, tag, timestamp, length, isLast);
      forall k :: 0 <= k < |lines| ==> |lines[k]| > 0 && NoBreak(lines[k])
  {
    RequestLineNoBreak(tag, timestamp);
    FieldLinesNoBreak(host, contentType, length, isLast);
  }

  lemma NoBreakJoin(a: string, b: string)
    requires NoBreak(a) && NoBreak(b)
    ensures NoBreak(a + b)
  {
    assert forall i :: |a| <= i < |a + b| ==> (a + b)[i] == b[i - |a|];
  }

  /** A receiver that reads the head of a request up to its empty line gets the request line
      and the header field lines, and exactly the payload (with whatever follows it on the
      connection) after them, when the tag, the host and the content type contain no line
      break. */
  lemma RequestLayout(host: string, contentType: string, tag: string, timestamp: Option<int>,
                      length: nat, payload: string, following: string, isLast: bool)
    requires NoBreak(host) && NoBreak(contentType) && NoBreak(tag)
    ensures ReadHead(RequestWithLength(host, contentType, tag, timestamp, length, payload, isLast) + following)
      == Some((HeadLines(host, contentType, tag, timestamp, length, isLast), payload + following))
  {
    var lines := HeadLines(host, contentType, tag, timestamp, length, isLast);
    HeadLinesAreLines(host, contentType, tag, timestamp, length, isLast);
    ReadJoined(lines, payload + following);
    assert RequestWithLength(host, contentType, tag, timestamp, length, payload, isLast) + following
      == Joined(lines) + "\r\n" + (payload + following);
  }

  /** Content-Length as computed here frames exactly the payload: a receiver that reads the
      head of a request and then the declared number of bytes gets the payload, whatever
      follows it on the connection. */
  lemma ContentLengthFramesPayload(host: string, contentType: string, tag: string, timestamp: Option<int>,
                                   payload: string, following: string, isLast: bool)
    ensures DeclaredLength(Fields(host, contentType, |payload|, isLast)) == Some(|payload|)
    ensures FramedBody(Fields(host, contentType, |payload|, isLast), payload + following) == Some(payload)
    ensures NoBreak(host) && NoBreak(contentType) && NoBreak(tag) ==>
      ReadHead(Request(host, contentType, tag, timestamp, payload, isLast) + following)
        == Some((HeadLines(host, contentType, tag, timestamp, |payload|, isLast), payload + following))
  {
    FieldsLookup(host, contentType, |payload|, isLast);
    ParseNatToString(|payload|);
    assert (payload + following)[..|payload|] == payload;
    if NoBreak(host) && NoBreak(contentType) && NoBreak(tag) {
      RequestLayout(host, contentType, tag, timestamp, |payload|, payload, following, isLast);
    }
  }

  /** As written, every request declares an empty body: a receiver that reads the head of a
      request and then the declared number of bytes reads no payload, and takes the payload
      for the start of the next request. */
  lemma AsWrittenContentLengthWrong(host: string, contentType: string, tag: string, timestamp: Option<int>,
                                    payload: string, following: string, isLast: bool)
    ensures DeclaredLength(Fields(host, contentType, 0, isLast)) == Some(0)
    ensures FramedBody(Fields(host, contentType, 0, isLast), payload + following) == Some("")
    ensures |payload| > 0 ==>
      FramedBody(Fields(host, contentType, 0, isLast), payload + following) != Some(payload)
    ensures NoBreak(host) && NoBreak(contentType) && NoBreak(tag) ==>
      ReadHead(RequestAsWritten(host, contentType, tag, timestamp, payload, isLast) + following)
        == Some((HeadLines(host, contentType, tag, timestamp, 0, isLast), payload + following))
  {
    FieldsLookup(host, contentType, 0, isLast);
    ParseNatToString(0);
    if NoBreak(host) && NoBreak(contentType) && NoBreak(tag) {
      RequestLayout(host, contentType, tag, timestamp, 0, payload, following, isLast);
    }
  }

  /** The value of each field of a request. */
  lemma FieldsLookup(host: string, contentType: string, length: nat, isLast: bool)
    ensures var f := Fields(host, contentType, length, isLast);
      FieldValue(f, "Host") == Some(host) &&
      FieldValue(f, "Content-Type") == Some(contentType) &&
      FieldValue(f, "Content-Length") == Some(NatToString(length)) &&
      FieldValue(f, "Connection") == Some(if isLast then "Close" else "Keep-Alive")
  {
    var f := Fields(host, contentType, length, isLast);
    assert f[1..][1..][1..] == [f[3]];
    assert f[1..][1..] == [f[2], f[3]];
    assert f[1..] == [f[1], f[2], f[3]];
    assert FieldValue(f, "Content-Length") == FieldValue(f[1..][1..], "Content-Length");
    assert FieldValue(f[1..][1..], "Connection") == FieldValue(f[1..][1..][1..], "Connection");
    assert FieldValue(f, "Connection") == FieldValue(f[1..][1..], "Connection");
  }

  // ---------------------------------------------------------------------------------------
  // post

  /** What fsockopen() gives: a connection, or the error number and text of a failed attempt. */
  datatype Connection = Connected | Refused(errno: int, errstr: string)

  /** The fwrite() results for the k-th request of a post; a request beyond the oracle's
      sequence sees only failed writes. */
  function WritesFor(writes: seq<seq<nat>>, k: nat): seq<nat>
  {
    if k < |writes| then writes[k] else []
  }

  /** Request j was written with writeStream(), which returned written[j] after calls[j]
      fwrite() calls. */
  ghost predicate WriteLog(writes: seq<seq<nat>>, retries: nat, requests: seq<string>,
                           written: seq<nat>, calls: seq<nat>)
  {
    |requests| == |written| == |calls| &&
    forall j :: 0 <= j < |requests| ==>
      WriteResult(WritesFor(writes, j), |requests[j]|, retries, written[j], calls[j])
  }

  lemma WriteLogStep(writes: seq<seq<nat>>, retries: nat, requests: seq<string>,
                     written: seq<nat>, calls: seq<nat>, output: string, bytes: nat, c: nat)
    requires WriteLog(writes, retries, requests, written, calls)
    requires WriteResult(WritesFor(writes, |requests|), |output|, retries, bytes, c)
    ensures WriteLog(writes, retries, requests + [output], written + [bytes], calls + [c])
  {
    var rs, ws, cs := requests + [output], written + [bytes], calls + [c];
    forall j | 0 <= j < |rs|
      ensures WriteResult(WritesFor(writes, j), |rs[j]|, retries, ws[j], cs[j])
    {
      if j < |requests| {
        assert rs[j] == requests[j] && ws[j] == written[j] && cs[j] == calls[j];
      }
    }
  }

  /** requests are the requests of the first items, in order. */
  ghost predicate RequestsFor<T>(requests: seq<string>, host: string, contentType: string, tag: string,
                                 timestamp: Option<int>, items: seq<T>, serialize: T -> string)
  {
    |requests| <= |items| &&
    forall j :: 0 <= j < |requests| ==>
      requests[j] == Request(host, contentType, tag, timestamp, serialize(items[j]), |items| == 1)
  }

  lemma RequestsForStep<T>(requests: seq<string>, host: string, contentType: string, tag: string,
                           timestamp: Option<int>, items: seq<T>, serialize: T -> string)
    requires RequestsFor(requests, host, contentType, tag, timestamp, items, serialize)
    requires |requests| < |items|
    ensures RequestsFor(requests + [Request(host, contentType, tag, timestamp, serialize(items[|requests|]),
                                            |items| == 1)],
                        host, contentType, tag, timestamp, items, serialize)
  {
    var k := |requests|;
    var rs := requests + [Request(host, contentType, tag, timestamp, serialize(items[k]), |items| == 1)];
    forall j | 0 <= j < |rs|
      ensures rs[j] == Request(host, contentType, tag, timestamp, serialize(items[j]), |items| == 1)
    {
      if j < k {
        assert rs[j] == requests[j];
      }
    }
  }

  /** The flags of post() so far: a flag is true exactly when its request was written in full,
      requests are written only while every earlier one was, and `result` says whether all
      of them were. */
  ghost predicate FailFast(results: seq<bool>, requests: seq<string>, written: seq<nat>, result: bool)
  {
    |requests| == |written| <= |results| &&
    (forall j :: 0 <= j < |results| ==> (results[j] <==> j < |requests| && written[j] == |requests[j]|)) &&
    (forall j :: 0 <= j < |requests| - 1 ==> written[j] == |requests[j]|) &&
    (result ==> |requests| == |results| && forall j :: 0 <= j < |requests| ==> written[j] == |requests[j]|) &&
    (!result ==> |requests| > 0 && written[|requests| - 1] < |requests[|requests| - 1]|)
  }

  /** A failed post() flags the rest false without writing; a request written keeps the flags
      in step. */
  lemma FailFastStep(results: seq<bool>, requests: seq<string>, written: seq<nat>, output: string, bytes: nat)
    requires FailFast(results, requests, written, true) && bytes <= |output|
    ensures FailFast(results + [bytes == |output|], requests + [output], written + [bytes], bytes == |output|)
  {
    var fs, rs, ws := results + [bytes == |output|], requests + [output], written + [bytes];
    forall j | 0 <= j < |fs|
      ensures fs[j] <==> j < |rs| && ws[j] == |rs[j]|
    {
      if j < |results| {
        assert fs[j] == results[j] && rs[j] == requests[j] && ws[j] == written[j];
      }
    }
    forall j | 0 <= j < |rs| - 1
      ensures ws[j] == |rs[j]|
    {
      assert rs[j] == requests[j] && ws[j] == written[j];
    }
    if bytes == |output| {
      forall j | 0 <= j < |rs|
        ensures ws[j] == |rs[j]|
      {
        if j < |requests| {
          assert rs[j] == requests[j] && ws[j] == written[j];
        }
      }
    }
  }

  lemma FailFastSkip(results: seq<bool>, requests: seq<string>, written: seq<nat>)
    requires FailFast(results, requests, written, false)
    ensures FailFast(results + [false], requests, written, false)
  {
    var fs := results + [false];
    forall j | 0 <= j < |fs|
      ensures fs[j] <==> j < |requests| && written[j] == |requests[j]|
    {
      if j < |results| {
        assert fs[j] == results[j];
      }
    }
  }

  /** The state of post()'s loop after k items: a flag per item, the requests of the first
      items written in order with writeStream(), and the fail-fast flags. */
  ghost predicate Sent<T>(k: nat, results: seq<bool>, result: bool, requests: seq<string>, written: seq<nat>,
                          calls: seq<nat>, host: string, contentType: string, tag: string,
                          timestamp: Option<int>, items: seq<T>, serialize: T -> string,
                          writes: seq<seq<nat>>, retries: nat)
  {
    |results| == k && (k > 0 ==> |requests| > 0) &&
    RequestsFor(requests, host, contentType, tag, timestamp, items, serialize) &&
    WriteLog(writes, retries, requests, written, calls) &&
    FailFast(results, requests, written, result)
  }

  /** Item k written with writeStream(): its request joins the log and its flag says whether
      the whole request went out. */
  lemma SentStep<T>(k: nat, results: seq<bool>, requests: seq<string>, written: seq<nat>, calls: seq<nat>,
                    host: string, contentType: string, tag: string, timestamp: Option<int>, items: seq<T>,
                    serialize: T -> string, writes: seq<seq<nat>>, retries: nat,
                    output: string, bytes: nat, c: nat, complete: bool)
    requires Sent(k, results, true, requests, written, calls, host, contentType, tag, timestamp, items,
                  serialize, writes, retries)
    requires k < |items|
    requires output == Request(host, contentType, tag, timestamp, serialize(items[k]), |items| == 1)
    requires WriteResult(WritesFor(writes, k), |output|, retries, bytes, c) && bytes <= |output|
    requires complete == (bytes == |output|)
    ensures Sent(k + 1, results + [complete], complete, requests + [output], written + [bytes], calls + [c],
                 host, contentType, tag, timestamp, items, serialize, writes, retries)
  {
    WriteLogStep(writes, retries, requests, written, calls, output, bytes, c);
    RequestsForStep(requests, host, contentType, tag, timestamp, items, serialize);
    FailFastStep(results, requests, written, output, bytes);
  }

  /** Item k skipped after a short write: it is flagged false and nothing is written. */
  lemma SentSkip<T>(k: nat, results: seq<bool>, requests: seq<string>, written: seq<nat>, calls: seq<nat>,
                    host: string, contentType: string, tag: string, timestamp: Option<int>, items: seq<T>,
                    serialize: T -> string, writes: seq<seq<nat>>, retries: nat)
    requires Sent(k, results, false, requests, written, calls, host, contentType, tag, timestamp, items,
                  serialize, writes, retries)
    ensures Sent(k + 1, results + [false], false, requests, written, calls, host, contentType, tag,
                 timestamp, items, serialize, writes, retries)
  {
    FailFastSkip(results, requests, written);
  }

  /** post(): connect, then write one request per item, each with writeStream(). An item is
      reported true exactly when its whole request was written; after the first short write
      every later item is reported false without being written. A failed connection throws.
      `requests` are the request texts written, `written` what writeStream() returned for each. */
  method Post<T>(host: string, port: int, contentType: string, tag: string, items: seq<T>,
                 timestamp: Option<int>, serialize: T -> string, retries: nat, connect: Connection,
                 writes: seq<seq<nat>>)
    returns (reply: FluentClient.PostReply, requests: seq<string>, written: seq<nat>, ghost calls: seq<nat>)
    ensures connect.Refused? ==> requests == [] && reply == FluentClient.Threw(
      Plain("Unable to open a connection to " + host + ":" + IntToString(port) + ", " + connect.errstr,
            connect.errno))
    // one flag per item, in order
    ensures connect.Connected? ==> reply.Replied? && |reply.oks| == |items|
    ensures |requests| == |written| == |calls| <= |items|
    ensures connect.Connected? && |items| > 0 ==> |requests| > 0
    // the request written for item i; Connection: Close only when the post has a single item
    ensures forall i :: 0 <= i < |requests| ==>
      requests[i] == Request(host, contentType, tag, timestamp, serialize(items[i]), |items| == 1)
    ensures forall i :: 0 <= i < |requests| ==>
      WriteResult(WritesFor(writes, i), |requests[i]|, retries, written[i], calls[i])
    // an item is true exactly when its whole request was written
    ensures connect.Connected? ==> forall i :: 0 <= i < |items| ==>
      (reply.oks[i] <==> i < |requests| && written[i] == |requests[i]|)
    // fail-fast: requests go on only after complete writes
    ensures forall i :: 0 <= i < |requests| - 1 ==> written[i] == |requests[i]|
    ensures |requests| < |items| && |requests| > 0 ==>
      written[|requests| - 1] < |requests[|requests| - 1]|
  {
    requests := [];
    written := [];
    calls := [];
    if connect.Refused? {
      reply := FluentClient.Threw(Plain("Unable to open a connection to " + host + ":" + IntToString(port)
                                        + ", " + connect.errstr, connect.errno));
      return;
    }

    var results: seq<bool> := [];
    var result := true;
    var i := 0; // the request counter; it is never advanced
    for k := 0 to |items|
      invariant Sent(k, results, result, requests, written, calls, host, contentType, tag, timestamp,
                     items, serialize, writes, retries)
    {
      // after a short write, later items are skipped and reported false
      if !result {
        SentSkip(k, results, requests, written, calls, host, contentType, tag, timestamp, items,
                 serialize, writes, retries);
        results := results + [false];
        continue;
      }
      // Content-Length is the length of the serialized item here; the source as written
      // declares 0 (RequestAsWritten), so its request text and length differ from this one
      var output := Request(host, contentType, tag, timestamp, serialize(items[k]), i == |items| - 1);
      var bytes, c, _ := WriteStream(output, retries, WritesFor(writes, k));
      // the item is true exactly when its whole request went out; otherwise the rest fail
      var complete := bytes == |output|;
      SentStep(k, results, requests, written, calls, host, contentType, tag, timestamp, items,
               serialize, writes, retries, output, bytes, c, complete);
      requests := requests + [output];
      written := written + [bytes];
      calls := calls + [c];
      results := results + [complete];
      result := complete;
    }
    reply := FluentClient.Replied(results);
  }
}
