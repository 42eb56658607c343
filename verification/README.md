# SmartThings sensor logger: the reading extractor and the append rule

The logger polls one SmartThings device's status every five minutes. From the
untyped status it takes the indoor temperature and relative humidity readings.
It appends each one to its own in-memory series and rewrites that series' JSON
file, but only when the reading is judged new. This project models the two
pure parts of that loop and proves properties about them:

- **Extraction** (`Fetch`, built on `JsValue` and `Readings`). The status is an
  untyped JavaScript value (`JsValue.Value`). Two fixed paths are walked:
  `components.main.temperatureMeasurement.temperature` and
  `components.main.relativeHumidityMeasurement.humidity`. Every hop must be a
  non-null object that holds the next key. Both leaves must be a reading
  response: a numeric `value`, a string `unit` and a string `timestamp`. Each
  leaf is then converted into a kept reading, whose timestamp is a parsed
  date. If any check fails, the program throws. Here that is `None`.
- **Append rule** (`Store`). A fresh reading is pushed, and the file rewritten,
  exactly when the reading's instant differs from that of the series' first
  element. An empty series always takes the reading. Instants are
  `Option<int>`: `None` is an Invalid Date, whose `getTime()` is NaN, so it
  equals nothing.
- **Polling round** (`Poll`). One round extracts the readings and applies the
  rule to the humidity series and then to the temperature series. A failed
  extraction changes nothing, which is the program's `catch`. Rounds in a row
  are a fold over the statuses the device returns.

Date parsing (`new Date(string).getTime()`) is a parameter
`parse: string -> Instant`. Three facts about the program shape the model:

- A new reading is compared with the first element of its series, not the last.
- The unit is a required string.
- One fetch serves both series, so a failed fetch skips both.

## Model

| member | source | states |
|---|---|---|
| JsValue.IsObject | get-data.ts:49-50 | `typeof v === "object" && v !== null` holds exactly for arrays and plain objects: null, undefined and primitives are rejected |
| JsValue.HasKey | get-data.ts:7-9 | `k in v` holds only of a non-null object that has `k` as a key, so every hop that passes it can be descended through |
| Readings.SameInstant | get-data.ts:96 | two `getTime()` values compare equal exactly when both are valid and equal, so an Invalid Date (NaN) equals nothing, itself included |
| Readings.IsReadingResponse | get-data.ts:47-58 | the guard holds exactly when the value is a non-null object whose `value` key holds a number and whose `unit` and `timestamp` keys hold strings; other keys are ignored |
| Readings.AsReadingResponse | get-data.ts:47-58 | the narrowed response exists exactly when the guard holds, and its three fields are the values found under those three keys |
| Readings.ResponseRoundTrip | get-data.ts:17-21 | every well-typed response, sent as an untyped object, passes the guard and reads back unchanged |
| Readings.ToReading | get-data.ts:23-29 | the conversion copies `value` and `unit` verbatim and takes the timestamp from parsing the response's timestamp string |
| Readings.ToReadingInvertsToResponse | get-data.ts:23-29 | when parsing reads back what formatting writes, a reading with a valid date survives the trip through its response form unchanged |
| Readings.TimestampOnlyFromString | get-data.ts:27 | the kept timestamp depends on the response's timestamp string alone |
| Fetch.Guard | get-data.ts:63-78 | the program's hop-by-hop condition holds exactly when both fixed paths can be walked to the end, every hop a non-null object holding the next key, and both leaves pass the reading guard |
| Fetch.GetData | get-data.ts:63-87 | the extraction succeeds exactly when the hop-by-hop guard holds (every hop a non-null object holding the next key, both leaves valid responses); on success the two readings are the converted leaves at the two fixed paths |
| Fetch.WalkAppend | get-data.ts:63-78 | validating a path hop by hop in two pieces is the same as validating it in one |
| Fetch.BrokenHopFails | get-data.ts:63-79 | one missing, null or non-object hop anywhere on either path fails the whole call, so neither reading is returned |
| Fetch.BadLeafFails | get-data.ts:73 | a reached leaf that is not a reading response, on either path, fails the whole call |
| Fetch.OnlyLeavesMatter | get-data.ts:80-85 | the result depends only on what the two fixed paths lead to |
| Fetch.StatusRoundTrip | get-data.ts:80-85 | a status holding two responses at the fixed paths yields exactly those two, converted |
| Store.AppendIfNew | get-data.ts:96-104 | a write happens exactly when the series is empty, its first instant is invalid, or the reading's instant differs from the first; a write happens if and only if the series changes; on a write the old elements stay in place and the reading is added as the single new last element |
| Store.EmptyAlwaysAppends | get-data.ts:96-98 | an empty series always takes the reading, and the file is written |
| Store.SameAsFirstIsDropped | get-data.ts:101 | a reading at the first element's valid instant leaves the series unchanged and writes nothing |
| Store.DecisionOnlyReadsFirst | get-data.ts:96 | two series that agree on emptiness and on their first instant get the same write decision |
| Store.AppendKeepsFirstUnique | get-data.ts:96-104 | the rule preserves "no later element shares the first element's valid instant" |
| Store.AsWrittenAppendsConsecutiveDuplicate | get-data.ts:101-103 | for any readings a and b where b has a valid instant different from a's, the series [a, b] accepts b again and writes, producing neighbouring duplicates |
| Store.AsWrittenNotIdempotent | get-data.ts:96-98 | on any non-empty series that takes a reading, offering the same reading again appends it a second time and writes again |
| Store.AsWrittenIdempotentFromEmpty | get-data.ts:96-98 | on an empty series, a reading with a valid date is taken once: offering it again changes nothing and writes nothing |
| Store.AppendIfNewLast | get-data.ts:96-104 | corrected rule: the same push/write contract, with the decision taken against the last element |
| Store.AppendLastKeepsNoConsecutiveDuplicates | get-data.ts:96-104 | the corrected rule never makes two neighbouring readings share a valid instant |
| Store.AppendLastIdempotent | get-data.ts:96-104 | under the corrected rule, offering a valid-dated reading a second time changes nothing and writes nothing |
| Poll.Tick | get-data.ts:90-109 | a failed extraction leaves both series and both files alone; otherwise each series gets the append rule applied to its own reading |
| Poll.TickChannelsIndependent | get-data.ts:96-104 | what happens to the humidity series and its file does not depend on the temperature series, and the other way round |
| Poll.RunFromInitialKeepsFirstUnique | get-data.ts:31-34 | starting from the freshly created empty files, both series keep the first-element uniqueness over any number of rounds |
| Poll.FailedFetchChangesNothing | get-data.ts:106-108 | when the status check fails, no series changes and no file is written |
| Poll.Run | get-data.ts:111-116 | over any number of rounds, each series only grows at its end, and each file is rewritten exactly once per reading appended to its series |
| Poll.RunKeepsFirstUnique | get-data.ts:96-104 | over any number of rounds, both series keep the first-element uniqueness the rule maintains |

## Left out

- The SmartThings client and its authenticated network call (get-data.ts:1-5, 61): foreign asynchronous I/O. The status is an input to `Fetch.GetData`.
- File creation, reading and writing (get-data.ts:31-37, 98, 103): file-system I/O. Only the "would write" outcome is modelled, and `Poll.Initial` stands for a freshly created `[]` file.
- `JSON.parse` with its reviver, and `JSON.stringify` (get-data.ts:39-45, 98, 103): library serialisation. One side effect is not modelled. An Invalid Date is stringified as `null`, and the reviver reloads it as the epoch.
- Date string parsing (get-data.ts:27, 40): a parameter `parse` from string to `Option<int>`, not a model of the `Date` grammar.
- `hasKey` (get-data.ts:7-9): modelled as own-key membership of a plain object. Inherited prototype properties, array indices and an array's `length` are not keys in the model. None of the keys the program asks for is one of these.
- Numbers are `real`: NaN, the infinities and floating-point rounding of `value` are not modelled. The value is only copied, never computed on.
- A status that is itself `null` makes `result.components` throw a TypeError, not fail the test. Both end in the same `catch`, so `Fetch.GetData` returns `None` for both.
- The promise chain, the logging and the five-minute `setInterval` (get-data.ts:90-116): asynchrony and scheduling. `Poll.Run` runs the rounds strictly one after another, so a round whose fetch outlasts the interval, overlapping the next, is not modelled.

## Findings

| source | as written | input that shows it | evidently intended | confidence | as-written member | corrected member |
|---|---|---|---|---|---|---|
| get-data.ts:96-104 | a reading is judged new by comparing it with `series[0]`, the oldest reading | series `[a@T0, b@T1]`, reading `b@T1`: `T1 !== T0`, so `b` is pushed again and the file rewritten; re-offering any reading just appended to a non-empty series does the same (`Store.AsWrittenNotIdempotent`) | compare with the most recent reading, `series[series.length - 1]`, so that neighbours never share an instant and a repeated poll writes nothing | not executed; high: once a series is non-empty, every poll whose reading differs from the oldest one appends, repeats included | Store.AsWrittenAppendsConsecutiveDuplicate | Store.AppendIfNewLast |

The polling model (`Poll.Tick`, `Poll.Run`) keeps the rule as written,
because that is what the program does. `Store.AppendIfNewLast` and its
lemmas state the intended rule and what it guarantees.
