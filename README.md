# edge-router access-log shipper, modelled in Dafny

The edge router runs nginx (OpenResty) and a log process, `logger.rb`. nginx
writes one JSON object per request, newline-terminated, into a named pipe.
The log process has two threads:

- **Reader** (`do_log`). It reads the pipe in chunks and appends each chunk to a
  string buffer. It cuts the buffer at every newline and decodes each complete
  line with `JSON.load`. A truthy value is pushed onto an in-process queue. A
  line that fails to decode, or decodes to `nil`/`false`, is reported and
  dropped.
- **Consumer** (`process_queue`). It pops one entry at a time and builds the
  request body from it: a one-element JSON array holding a Zipkin v1 span. It
  then POSTs that message to the collector. A push that raises is retried after
  one second with the same message. A push that returns ends the retry loop,
  whatever the HTTP status was, and only then is the next entry popped.

The model has five modules:

- `Wrappers`: `Option` and `Result`.
- `Json`: the decoded value, Ruby truthiness, and the outcome of the decoder.
- `Framing`: the reader.
  - `DoLog` is an imperative method with the source's two nested loops.
  - It is proved against the specification functions `Lines`, `Rest`,
    `Accepted` and `Ignored`, whose properties are lemmas.
- `Translation`: the span construction, as a pure function `Translate` with its
  fault cases.
- `Delivery`: the consumer.
  - `RetryPush` is the inner retry loop.
  - `ServeEntry` is one pass of the outer loop.
  - `ProcessQueue` is the outer loop.
  - These are proved against the specification function `Consume`, whose
    retry, head-of-line, accounting and ordering properties are lemmas.

The following are parameters of the model:

- The outside world:
  - the chunks a read returns;
  - what each push meets: an exception, or an HTTP response.
- Library behaviour:
  - `JSON.load` on one line;
  - `String#to_f`;
  - `Time.parse(...).to_i`.
- The consumer's span construction. `ProcessQueue` and `Consume` take it as a
  function. The lemmas that need the logger's own construction instantiate it
  with `Translation.Translate`.

Four behaviours of the code that a reader may not expect:

- A translation that raises is fatal. The entry is not skipped: the process
  aborts and the entry, already popped, is lost. This covers an entry that
  cannot be indexed, a `request_time` that is a boolean, an array or a hash,
  and an unparseable `time`. The consumer thread runs with `abort_on_exception`
  (logger.rb:75), so the whole log process ends. `Delivery.Consume` stops with
  `Aborted`.
- A `request_time` that is missing, `null` or non-numeric text is not an
  error. `to_f` gives 0.0 for `nil` and for text that does not start with a
  number, and the span's duration is then 0.
- A response other than 202 is not retried. `push_zipkin_message` only prints a
  warning for it and returns normally (logger.rb:133-137). Only an exception
  makes the retry loop sleep and try again (logger.rb:107-116).
- `duration` is `request_time` × 1000 truncated toward zero. That is
  milliseconds, in a field the comment at logger.rb:79 calls microseconds. It is
  reproduced as written.

## Model

| member | source | states |
|---|---|---|
| Json.RubyTruthiness | logger.rb:63 | `if json` follows Ruby: zero, the empty string, the empty array and the empty hash are true, and only `nil` and `false` are not. |
| Json.KeepExactly | logger.rb:62-66 | A line is dropped exactly when `JSON.load` raised (turned into `nil` by `rescue nil`) or returned `nil` or `false`. |
| Framing.SplitFirst | logger.rb:59-60 | `split("\n", 2)` yields no second part exactly when the buffer holds no newline. Otherwise the buffer is the part before its first newline (itself newline-free), the newline, and everything after it. |
| Framing.SplitUnique | logger.rb:59 | Every text written as a newline-free line, a newline and a remainder splits into exactly that line and remainder. |
| Framing.Lines | logger.rb:58-69 | No framed line contains a newline. |
| Framing.Rest | logger.rb:58-69 | The partial record held back in the buffer contains no newline. |
| Framing.DoLog | logger.rb:54-70 | The lines handed to the decoder and the buffer left over depend only on the concatenation of all chunks read, so chunk boundaries do not matter. Those lines, each with its newline, followed by the buffer, are exactly the bytes read. The buffer is newline-free. The queue holds the truthy decoded values and the report holds the other lines, both in line order. |
| Framing.LinesAppend | logger.rb:57-60 | Appending bytes leaves the lines already complete unchanged. The lines of `s + t` are the lines of `s` followed by those of its held-back remainder extended by `t`. |
| Framing.Conservation | logger.rb:57-68 | Framing neither loses nor duplicates bytes: the lines, each with its newline, followed by the held-back remainder, give back the input. |
| Framing.FramingUnique | logger.rb:58-69 | The converse of Conservation. Newline-free lines joined with newlines, plus a newline-free remainder, are framed back into those lines and that remainder. |
| Framing.LineCount | logger.rb:58-69 | Exactly one line is framed per newline read. |
| Framing.FirstLine | logger.rb:59-61 | A newline-free line followed by a newline is framed first, and framing continues on what follows it. |
| Framing.ConsecutiveNewlines | logger.rb:59-62 | For any newline-free `s` and any `t`, `s` followed by two newlines and `t` frames `s`, then an empty line (decoded like any other), then the lines of `t`, and holds back what `t` holds back. |
| Framing.Accepted | logger.rb:62-64 | Every queued value is truthy, and there is at most one per line. |
| Framing.Ignored | logger.rb:65-66 | At most one line is reported per framed line. |
| Framing.FilterAppend | logger.rb:62-67 | The decode filter works line by line: the pushes and reports for a sequence of lines are those for a prefix followed by those for the rest. |
| Framing.FilterPartition | logger.rb:63-67 | Every line is either pushed or reported, never both and never neither. |
| Framing.AcceptedExactly | logger.rb:62-64 | A value is queued if and only if some line decodes to it and it is truthy. |
| Framing.MalformedLineSkipped | logger.rb:62-66 | A line that fails to decode is reported and dropped, and a valid line after it is still queued. |
| Translation.ContainsSubstring | logger.rb:80-102 | The substring test behind `String#[](str)` holds exactly when `str` occurs at some offset of the string. |
| Translation.Index | logger.rb:80-102 | `entry[key]` on a Hash gives the value under `key`, or `nil` when the key is absent. On a String it gives `key` when `key` occurs in the string and `nil` otherwise. Every other receiver (`nil`, a boolean, a number, an array) raises. |
| Translation.ToF | logger.rb:80 | `.to_f` gives 0.0 for `nil`, a number unchanged, and the runtime's conversion for a string. A boolean, an array or a hash has no `to_f` and raises. |
| Translation.EpochSeconds | logger.rb:82-83 | `Time.parse` accepts only a String, which the runtime may fail to parse; any other value raises. |
| Translation.Truncate | logger.rb:80 | `Float#to_i` truncates toward zero: for either sign, the result lies within one unit of its argument on the zero side. |
| Translation.Duration | logger.rb:80 | `duration` is `request_time` × 1000 truncated toward zero: non-negative for a non-negative request time, and within one unit of the scaled value. |
| Translation.Timestamp | logger.rb:83 | `timestamp` is a whole number of seconds in microseconds, and the epoch seconds can be read back from it. |
| Translation.Translate | logger.rb:79-105 | The conditions for each outcome are stated in both directions. A message is built exactly when the entry can be indexed, its `request_time` converts with `to_f`, and its `time` parses. Each fault happens exactly when its own cause is met. The message is a one-element array holding a span of the edge router with that entry's `trace_id` and its four tags in order; its timestamp gives back the parsed seconds and its duration is `Duration` of the request time. |
| Translation.RequestTimeFaultExactly | logger.rb:80 | The `request_time` fault happens exactly when the entry is a Hash whose `request_time` is a boolean, an array or a hash. A missing or `null` value, a number and any text all convert. |
| Translation.AbsentRequestTimeIsZero | logger.rb:80 | A Hash without `request_time`, or with a `null` one, that translates at all is shipped with duration 0. |
| Translation.ReceiveAfterSend | logger.rb:95-96 | With a non-negative request time, the client-receive annotation is no earlier than the client-send one. |
| Translation.SampleAccessLine | logger.rb:79-105 | The record with request time `"0.125"` logged at 2024-01-01T00:00:00Z becomes a span with duration 125 at timestamp 1704067200000000, with annotations at that timestamp and 125 later. |
| Delivery.PushZipkinMessage | logger.rb:133-137 | A push returns normally exactly when the collector responded, whatever the status, and it warns exactly when the status is not 202. |
| Delivery.NextReturn | logger.rb:107-116 | The retry loop ends at the first attempt that does not raise, or runs through every outcome. |
| Delivery.BeforeNextReturn | logger.rb:107-116 | Every attempt before the one that ends the retry loop raised. |
| Delivery.NextReturnUnique | logger.rb:107-116 | A position preceded only by raised attempts and holding a response (or the end) is where the retry loop ends. |
| Delivery.RetryPush | logger.rb:107-116 | Every push of one message carries that same message. There is one sleep per raised push, and the loop ends at the first push that returns. |
| Delivery.Consume | logger.rb:76-116 | The reference run of the consumer. An empty queue blocks. Otherwise the head entry is popped and translated; a translation that raises aborts; otherwise its message is pushed until a push returns (retrying while outcomes last), and then the next entry is served. Its properties are the `Consume…` lemmas below. |
| Delivery.ServeEntry | logger.rb:77-116 | One pass of the outer loop is the first step of `Consume`. It either stops the consumer for the reason `Consume` gives, or acknowledges the entry after `s` raised pushes and hands on to the next entry. |
| Delivery.ProcessQueue | logger.rb:76-117 | The consumer loop computes exactly the run `Consume` specifies: entries popped, pushes in call order, sleeps, and where it stops. |
| Delivery.RetryThenAdvance | logger.rb:107-116 | K raised attempts followed by any response give K+1 pushes of the same message and K sleeps, and then the next entry. |
| Delivery.NonAcceptedNotRetried | logger.rb:133-137 | A non-202 response warns and is not retried: the entry is pushed once, with no sleep, and the next push is for the next entry. |
| Delivery.HeadOfLineBlocking | logger.rb:76-116 | While every push raises, the consumer stays on its entry. Nothing behind it is popped, and every push carries its message with one sleep after each. |
| Delivery.FaultStopsConsumer | logger.rb:75-82 | A translation that raises ends the run at that entry. Nothing is pushed for it and nothing behind it is popped. |
| Delivery.TimeParseFailureIsFatal | logger.rb:75-83 | An entry whose `time` cannot be parsed is not skipped: the consumer stops on it with `TimeNotParseable`. |
| Delivery.ConsumeAccounting | logger.rb:76-116 | Each push uses one outcome. The pushes number the sleeps plus one per entry popped, less the last entry when the run did not stop on an empty queue. The run stops on an empty queue (every entry popped), on the entry still being retried when the outcomes run out (every outcome used), or on the entry whose translation raised (with that fault). |
| Delivery.ConsumeSleeps | logger.rb:107-116 | The sleeps of a run are exactly the pushes whose outcome was an exception. |
| Delivery.ConsumeNoSkip | logger.rb:76-116 | No popped entry is skipped. The first push is for the first entry. After a raised push the next push is for the same entry, and after a push that returned it is for the next entry. The last push is for the last popped entry, or for the one before it when that entry's translation raised. A run with no pushes popped nothing, or only the entry it stopped on. |
| Delivery.ConsumeBuiltFrom | logger.rb:77-109 | Every push carries the message built from an entry the run popped. |
| Delivery.ConsumeInOrder | logger.rb:76-116 | Pushes follow queue order: no entry is pushed after a later one. |
| Delivery.PostedSpans | logger.rb:77-109 | With the logger's own translation, every push is the translation of a popped entry: a one-element array holding a span of the edge router. |

## Left out

- Process supervision (logger.rb:9-40) is not modelled: creating the pipe, forking nginx and the log process, and exiting with a child's status.
- The blocking `readpartial(2048)` is not modelled. Its results are given as a finite sequence of chunks of any length, and the 2048-byte bound is not imposed. The `EOFError` it raises once the writer closes the pipe, which ends the log process, is not modelled.
- The `Queue` and the two threads are not modelled. The reader and the consumer are modelled separately, and the consumer sees a queue that holds the reader's pushes and receives nothing more while it runs. In the model, an empty queue ends the run with `Blocked` where `queue.pop` would wait.
- `JSON.load` is an abstract function from a line to either an exception or a JSON value.
- `JSON.load`'s `rescue nil` catches only `StandardError`, and other exception classes are not distinguished.
- `String#to_f` and `Time.parse(...).to_i` are abstract functions passed in a `Library` value. `parseTime` is a pure function of the string, so it assumes a fixed clock and time zone: `Time.parse` fills missing date fields from the current time and reads a zoneless time in the local zone. Floats are modelled as exact reals, so rounding in `request_time * 1000` is not modelled.
- Translation.Translate: the `FloatDomainError` that `Float#to_i` raises on Infinity or NaN is not modelled. That error comes from a `request_time` such as `"1e400"`, a JSON `NaN`, or a product beyond the largest double. It would abort the consumer like the other faults, but exact reals have no such values, so the model builds a span there.
- `Net::HTTP`, the URI, the headers and `JSON.dump` are not modelled. A push is modelled only by what it meets: an exception (from serialisation, the network or the collector) or a response code.
- The `puts` messages, `Time.now`, and the length of the one-second sleep are not modelled. A sleep is counted, not timed.
- Delivery.ProcessQueue: runs against a finite sequence of push outcomes. When they run out mid-retry the run ends with `Retrying`, so the infinite retry of the source is shown as an unbounded prefix rather than a non-terminating loop.
- Bytes are modelled as characters. The pipe carries bytes, and no character encoding is applied.
