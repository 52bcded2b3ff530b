# Trace event recorder

A model of the trace recorder in `base/tracing.cc` and `base/tracing.h`. The recorder collects `TraceEvent`s (a name, a phase character, a microsecond timestamp, a process id and a thread id) into a buffer. It writes them as one JSON array in the Chrome trace-event format, flushing each time the buffer reaches its capacity, and it closes the array when the recorder is destroyed.

The modules are:

- `Options` (`options.dfy`): the usual `Option` type, used for the results of the reader.
- `TraceEvents` (`event.dfy`): covers the following.
  - The event record and its 32- and 64-bit fields.
  - The event constructor, which copies a C string name and captures the clock and ids it is given.
  - `ToString`, the fixed-key JSON object. It writes `name`, `ph`, `ts`, `pid` and `tid` in that order. The name is written verbatim. `ts` is signed decimal. `pid` and `tid` are unsigned decimal, as `%u` prints a 32-bit `int`.
- `TraceParsing` (`parse.dfy`): a reader for exactly the text the recorder writes. It is an inverse of the writer. It spells the keys of the event object itself, so a round trip also checks the writer's key text and key order. It shares the writer's `%u` conversion (`Unsigned32`) and only inverts it. The round-trip lemmas use it to show that the writer loses nothing and adds nothing.
- `TraceFormat` (`format.dfy`): covers the following.
  - Comma-joined runs of serialised events.
  - The separator rule: `[` while nothing has been written, `,` afterwards.
  - The text of the file after any number of flushes.
  - The three shapes teardown can leave, with what the reader makes of each.
- `Tracing` (`tracer.dfy`): the `Tracer` class, with its buffer, capacity, written-events counter and output text. It provides the constructor, `WriteRecords`, `AddEvent` and the destructor (`Destroy`). Its invariant `Valid` (on plain values, `Consistent`) states the following:
  - The written events followed by the buffered ones are every event added, in order.
  - The file holds the opened array of exactly the written events.
  - The buffer stays below the flush threshold.
  - Every flush wrote one full buffer.
- `TraceMacros` (`macros.dfy`): the `TRACE_EVENT` flag gate and the `ScopedTraceEvent` begin/end pair. The scope object keeps a reference to the caller's character buffer (`CharBuffer`), as the C++ object keeps the caller's pointer, and reads it again when the scope ends.

`AddEvent` runs entirely under one mutex. A run with many threads is therefore some sequence of whole `AddEvent` calls, and the class is that sequential object.

With no events, the destructor's flush still writes `[` (the counter is 0), so the file is `[]`.

## Model

| member | source | states |
|---|---|---|
| TraceEvents.CString | base/tracing.cc:82-83 | the name kept is the text before the first NUL of the buffer it was given, and it holds no NUL |
| TraceEvents.MakeEvent | base/tracing.cc:82-84 | a new event keeps the given name (up to its NUL) and phase, and the clock reading, pid and tid captured once at construction |
| TraceEvents.NatToDecimal | base/tracing.cc:88-91 | the decimal text `%u` and `%lld` print for a magnitude; `DecimalCanonical` and `DecimalRoundTrip` state what it means |
| TraceEvents.DecimalCanonical | base/tracing.cc:88-91 | a number prints as digits only, with a leading zero exactly when it is 0 |
| TraceEvents.DecimalRoundTrip | base/tracing.cc:88-91 | the printed digits of a number denote that number |
| TraceEvents.IntToDecimal | base/tracing.cc:88-90 | the `%lld` text of the timestamp; `IntToDecimalSign` and `ParseIntRoundTrip` state what it means |
| TraceEvents.IntToDecimalSign | base/tracing.cc:88-90 | `%lld` prints a leading minus exactly for negative timestamps, and never prints an empty field |
| TraceEvents.Unsigned32 | base/tracing.cc:89-91 | the value `%u` prints for an `int` id; `Unsigned32Range` and `ParseIdRoundTrip` state what it means |
| TraceEvents.Unsigned32Range | base/tracing.cc:89-91 | the value `%u` prints for an `int` id is below 2^32, equals the id modulo 2^32, and is the id itself when the id is non-negative |
| TraceEvents.ToString | base/tracing.cc:86-91 | the fixed-key JSON object of an event; `EventRoundTrip` states that it reads back as exactly the event, with the keys `name`, `ph`, `ts`, `pid`, `tid` spelt and ordered as the reader expects |
| TraceParsing.ParseNatRoundTrip | base/tracing.cc:89-91 | an unsigned decimal field is read back as the number printed, leaving the text after it |
| TraceParsing.ParseIntRoundTrip | base/tracing.cc:88-90 | a signed decimal timestamp is read back as the number printed |
| TraceParsing.ParseIdRoundTrip | base/tracing.cc:89-91 | a `%u` id field after its key is read back as the original 32-bit id |
| TraceParsing.ParseNameRoundTrip | base/tracing.cc:88 | a quote-free name written verbatim is read back unchanged |
| TraceParsing.ParsePhaseRoundTrip | base/tracing.cc:88 | the phase is written as a one-character string and read back unchanged |
| TraceParsing.ParseTimestampRoundTrip | base/tracing.cc:88-90 | the timestamp field after its key is read back as the original 64-bit value |
| TraceParsing.EventRoundTrip | base/tracing.cc:86-91 | for a name without `"`, the serialisation is read back as exactly the event, whatever text follows it, so no field is lost or altered |
| TraceParsing.ElementsStep | base/tracing.cc:61-63 | an event's serialisation at the head of a run is read as that event, followed by the rest of the run |
| TraceFormat.Separator | base/tracing.cc:60 | a flush first writes one character, which is `[` exactly when no event has been written yet and `,` otherwise |
| TraceFormat.Records | base/tracing.cc:61-66 | the text one flush writes after its separator; `RecordsReadBack` states that it reads back as the buffered events, in order |
| TraceFormat.Opened | base/tracing.cc:60-66 | the file between flushes; `OpenedExtend` and `FlushAll` state how each flush extends it |
| TraceFormat.JoinConcat | base/tracing.cc:61-66 | joining two non-empty runs with commas is joining each and putting one comma between them |
| TraceFormat.RecordsConcat | base/tracing.cc:61-66 | the records of two consecutive batches are the first batch's records, a comma and the second batch's |
| TraceFormat.RecordsSingle | base/tracing.cc:61-66 | a one-event run is that event's serialisation alone, with no comma |
| TraceFormat.RecordsSnoc | base/tracing.cc:61-66 | appending an event to a non-empty run appends a comma and its serialisation |
| TraceFormat.RecordsStep | base/tracing.cc:61-66 | each turn of the write loop extends the run with a comma, except on the first turn, and the next serialisation |
| TraceFormat.RecordsFirst | base/tracing.cc:61-66 | a run of two or more starts with its first serialisation and a comma |
| TraceFormat.OpenedExtend | base/tracing.cc:60-66 | a flush after earlier ones writes `,` and its records, so the file is the opened array of all events written so far |
| TraceFormat.FlushAll | base/tracing.cc:52-66 | flushing every event past the written ones leaves the opened array of all events added |
| TraceFormat.TeardownOutput | base/tracing.cc:41-43 | teardown leaves `[]` when nothing was added, `[` records `,]` when the last flush emptied a non-empty buffer, and the closed array of every event otherwise |
| TraceFormat.TeardownShape | base/tracing.cc:41-43 | the last flush plus `]` after the opened text of the written events is exactly the teardown output |
| TraceFormat.RecordsReadBack | base/tracing.cc:61-66 | a comma-joined run of quote-free events is read back as those events, in order, before whatever follows |
| TraceFormat.RecordsNonEmpty | base/tracing.cc:61-66 | a flush of at least one event writes something |
| TraceFormat.ArrayReadBack | base/tracing.cc:41-43 | the closed array of quote-free events is read back as exactly those events, each once and in order |
| TraceFormat.TrailingCommaRejected | base/tracing.cc:41-43 | the text left by teardown after an emptying flush is not a well-formed array |
| TraceFormat.TeardownReadBack | base/tracing.cc:41-47 | the final file is read back as every event added, in order, except exactly when the last flush emptied a non-empty buffer |
| Tracing.Threshold | base/tracing.cc:52 | the buffer size at which `AddEvent` flushes, since the `>=` test makes a capacity of 0 behave like 1; `FlushCount` states what it governs |
| Tracing.Consistent | base/tracing.cc:51-66 | the recorder's invariant on plain values; `PushKeeps` and `FlushKeeps` state that `AddEvent`'s two branches keep it |
| Tracing.PushKeeps | base/tracing.cc:51-52 | pushing an event that leaves the buffer below capacity keeps every event added exactly once and in order, with the file unchanged |
| Tracing.FlushKeeps | base/tracing.cc:51-55 | pushing an event that fills the buffer, writing the buffer and clearing it leaves every event added written once, in order, with one more flush |
| Tracing.FlushCount | base/tracing.cc:52-55 | for a recorder between calls, the flushes so far are the events added divided by the threshold, and the buffer holds the remainder |
| Tracing.Tracer.Valid | base/tracing.h:70-74 | the recorder's state between calls: the file is open and `Consistent` holds of the fields |
| Tracing.WriteStep | base/tracing.cc:61-66 | one turn of the write loop appends the next serialisation and a comma unless that event is the last |
| Tracing.Tracer.constructor | base/tracing.cc:34-39 | a new recorder has an empty buffer, no event written, an empty file and the given capacity |
| Tracing.Tracer.WriteRecords | base/tracing.cc:58-67 | a flush appends the separator and the comma-joined buffer, adds the buffer length to the counter, and leaves the buffer as it is |
| Tracing.Tracer.AddEvent | base/tracing.cc:49-56 | the event is added last. Below capacity, nothing else changes. At capacity, the whole buffer is written and emptied. The invariant is kept |
| Tracing.Tracer.Destroy | base/tracing.cc:41-47 | teardown flushes once more, even an empty buffer, appends `]` and closes the file, leaving the teardown output; the buffer, the events added and the flush count are unchanged |
| Tracing.Tracer.DestroyCorrected | base/tracing.cc:41-43 | teardown that skips an empty final flush after an earlier one leaves the closed array of every event added |
| TraceMacros.Emission | base/tracing.h:80-83 | one event with the given name, phase and captured moment when tracing is enabled, none otherwise |
| TraceMacros.Trace | base/tracing.h:80-83 | `TRACE_EVENT` adds exactly that emission to the recorder and leaves the recorder untouched when disabled |
| TraceMacros.ScopedTraceEvent.constructor | base/tracing.h:92-94 | opening a scope keeps the caller's buffer and records a `B` event under the name it holds then, when enabled |
| TraceMacros.ScopedTraceEvent.End | base/tracing.h:93-94 | closing the scope records an `E` event under the name the same buffer holds at scope exit, when enabled |
| TraceMacros.ScopeBracketed | base/tracing.h:91-95 | with tracing enabled at both ends, the body's events sit between a `B` event named from the buffer at construction and an `E` event named from it at exit; the names agree exactly when those C strings agree, so always when the buffer is unchanged |

## Left out

- The mutex in `AddEvent` is left out. Every call is one atomic step of the sequential class.
- The output file is modelled as an append-only string. Opening it, the `CHECK` that it opened, and closing it are left out. `open` only records that teardown has run.
- `LOG(INFO)` diagnostics are left out.
- The clock (`MicrosecondsSinceEpoch`), `getpid` and the hashed thread id are parameters of the event constructor and of the macros. The truncation of the thread-id hash to `int` happens before the value reaches the model.
- The lazily built global instance and the reading of its flags are left out. The recorder is passed to the macros explicitly, and the enable flag is a field of each call's `Moment`.
- The `__LINE__` token-pasting macros behind `SCOPED_TRACE` are left out. They only name a `ScopedTraceEvent` variable.
- The output file name (`filename_`) is left out, because it is used only to open the file and in a log line.
- `base/tracing_example.cc` is not part of this model.
- C++ strings are byte strings. The model uses Dafny `char` sequences, which is harmless here: the only character the model reasons about is the ASCII double quote.
- TraceFormat.ArrayReadBack: names are not escaped, so every read-back lemma requires names without `"`. A name with `"`, `\` or a control character yields text that is not valid JSON.
- Tracing.Tracer.constructor: requires a non-negative buffer size. A negative flag value becomes a huge `size_t`, and reserving that many events throws.
- Tracing.Tracer.WriteRecords: the 32-bit counter is modelled as an unbounded natural. Overflowing it after 2^31 events is undefined behaviour that the model does not reproduce.
- TraceMacros.ScopeBracketed: the scope's destructor is the explicit `End` call. The model does not show that it runs on every exit from the scope. Whether the name buffer changes inside the scope is up to the caller, so the two names are related only through the buffer's contents at the two instants.

## Findings

| source | as written | input that shows it | evidently intended | confidence | as-written member | corrected member |
|---|---|---|---|---|---|---|
| base/tracing.cc:41-43 | the destructor always flushes, and a flush after earlier ones starts with `,` even when the buffer is empty | capacity 2, add events A and B (the second add flushes and empties the buffer), then destroy: the file is `[A,B,]` | the final flush is skipped when the buffer is empty and something was written, so the file is `[A,B]` | high, not executed | TraceFormat.TrailingCommaRejected | Tracing.Tracer.DestroyCorrected |
