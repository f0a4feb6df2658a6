# CSV user import, modelled in Dafny

This project models the import pipeline of the kelp-assignment service:

- `processCSV` reads a CSV file line by line. The first line gives the headers. Every later line whose cell count matches the headers becomes a nested JSON record, built by `buildNestedObject` and `setNestedProperty`. Each record goes to an asynchronous callback.
- `importCsvData` empties the `users` table, collects the records in batches of 1000, and hands each full batch, then the remainder, to `insertUsersBatch`. It reports success or failure as a value.
- `insertUsersBatch` projects every record to a table row with `transformForDb`. It builds one multi-row parameterised `INSERT`, then sends it on a pooled client inside `BEGIN` / `COMMIT`. On error it rolls back and rethrows; it always releases the client.

The model is organised by the program's own files:

| module | file | models |
|---|---|---|
| `JsValues` | `js_values.dfy` | JavaScript values as far as the pipeline sees them: strings, numbers, plain objects, truthiness, errors, and `Array.prototype.join` |
| `PathSetter` | `path_setter.dfy` | `setNestedProperty`, as a method on a mutable `JsonObject`, proved against the value function `SetPath` and the error function `Thrown` |
| `RecordBuilder` | `record_builder.dfy` | `String.prototype.split`, the numeric test, and `buildNestedObject` |
| `Rows` | `rows.dfy` | `transformForDb` and the flat parameter layout of the batch insert |
| `Store` | `store.dfy` | the PostgreSQL server as seen through the pool: a log of the commands sent, a table, and a scripted sequence of replies |
| `Db` | `db.dfy` | the placeholder text, the query builder and the transaction of `insertUsersBatch` |
| `Accumulator` | `accumulator.dfy` | the batch buffer behind `onDataCallback`, and the arithmetic of cutting records into batches |
| `CsvStream` | `csv_stream.dfy` | the line loop of `processCSV` |
| `DataImporter` | `data_importer.dfy` | `importCsvData` |

What the model fixes as parameters:

- JavaScript's `Number(text)` and number-to-text are left uninterpreted, as the two halves of a `Numerals` value. `parse` returning `None` stands for `NaN`.
- The database is an object whose replies come from a given sequence. Reply *k* answers the *k*-th fallible request, and every request past the end succeeds. On that object the model tracks the table's rows, the rows pending in an open transaction, and every command sent.
- The file is given as the lines it yields, followed by an optional read error.

The main results are these:

- **`setNestedProperty`.** It writes the value at the end of the path and leaves every other path untouched. A falsy slot becomes a fresh object, and a later write to the same path wins. A truthy string or number on the way loses the write silently when exactly one key follows the key that holds it. When two or more keys follow, it throws the JavaScript `TypeError`, with its exact message.
- **`buildNestedObject`.** It returns the record of all columns, or the first column's error. With headers of at most one dot it never fails.
- **`processCSV`.** It delivers, in order, the records of exactly the accepted lines and stops at the first line whose record cannot be built. With an importer that accepts every record, it settles with that line's error, else with the read error, else normally.
- **`insertUsersBatch`.** It sends precisely CONNECT, BEGIN, INSERT, COMMIT, RELEASE when all goes well. When a statement fails it sends the prefix, then ROLLBACK and RELEASE. A record without a name fails the call before anything is sent. Parameter `$(4k+j+1)` of the query is field *j* of row *k*. The table gains the batch's rows exactly when the call succeeds.
- **`importCsvData`.** The server sees the TRUNCATE first. Once it succeeds, the server sees one committed transaction per batch inserted, each carrying that batch's rows, and then the call that failed, if one did. The table holds the rows of the batches inserted, which are a prefix of the input's records. A successful import inserted all of them, cut into `ceil(n / 1000)` batches. A failure reports the error of the TRUNCATE, else of the failed insert, else of the stream. If the TRUNCATE fails, nothing else is sent and the table keeps its rows.

Where the code behaves differently from a first reading of its design, the model follows the code:

- A record whose `name` property is missing makes `transformForDb` throw a `TypeError` ("Cannot read properties of undefined (reading 'firstName')"). The batch insert then fails before a client is checked out.
- A missing `firstName` or `lastName` is rendered as the text `undefined`, not as an empty string.
- A header path that runs through a key already holding a truthy string or number is not an error on its own. When exactly one key follows that key, the value is silently dropped: headers `a.b,a.b.c` over cells `x,y` build `{a: {b: "x"}}`. When two or more keys follow it, `setNestedProperty` throws a `TypeError`, the stream stops, and the import fails with that message.
- Any falsy `address` (empty cell, `0`) is stored as `NULL`.
- `age` is stored as whatever the cell produced: a number, text, or absent, which is sent as `NULL`.
- A cell counts as numeric when it is not empty and `Number(cell)` is not `NaN`. Whitespace-only cells are therefore numeric in JavaScript. That decision lives inside the uninterpreted `parse`.

## Model

| member | source | states |
|---|---|---|
| `PathSetter.JsonObject.constructor` | services/csvProcessor.js:22 | a new object has no properties |
| `PathSetter.JsonObject.SetNestedProperty` | services/csvProcessor.js:8-18 | the object afterwards is `SetPath` of the object before; the call throws exactly when `Thrown` says so, with that error |
| `PathSetter.Walk` | services/csvProcessor.js:9-16 | the descent loop keeps the final write equal to the write at the slot reached, lifted back through the trail; it keeps the thrown error equal to the error from that slot; it stops early only at a truthy non-object, before the last key |
| `PathSetter.WriteBack` | services/csvProcessor.js:15-17 | writing into the innermost object changes the root exactly as rebuilding the trail of enclosing objects does |
| `PathSetter.Thrown` | services/csvProcessor.js:10-17 | an error is only ever thrown for a path of at least three keys that is blocked by a truthy primitive |
| `PathSetter.ThrownIffBlockedEarly` | services/csvProcessor.js:10-17 | the call throws if and only if a truthy primitive blocks the path before its last key |
| `PathSetter.BlockedStep` | services/csvProcessor.js:10-17 | after stepping onto a truthy primitive at key i the write is lost; what follows depends on the keys that remain: nothing is thrown if only one key remains, the final assignment throws "Cannot set properties of undefined" if two remain, and a read throws "Cannot read properties of undefined" if more remain |
| `PathSetter.WriteSucceedsIff` | services/csvProcessor.js:10-17 | the write takes effect if and only if no truthy primitive blocks the path |
| `PathSetter.SetPathBlocked` | services/csvProcessor.js:12-17 | a blocked path leaves the object unchanged |
| `PathSetter.EmptyReachable` | services/csvProcessor.js:12-14 | from an empty object every path is reachable |
| `PathSetter.SetPathReaches` | services/csvProcessor.js:8-18 | on a reachable path, reading the path back gives the value written |
| `PathSetter.SetPathOnEmptyReaches` | services/csvProcessor.test.js:10-14 | on an empty object a path of any depth reads back the value written |
| `PathSetter.SetPathKeepsSiblings` | services/csvProcessor.js:8-18 | a path that is neither a prefix nor an extension of the written path reads the same before and after |
| `PathSetter.SetPathReplacesFalsy` | services/csvProcessor.js:12-15 | an absent or falsy first slot is replaced by a fresh object that holds only the rest of the path |
| `PathSetter.SetPathDescends` | services/csvProcessor.js:15 | an object in the first slot is updated in place with the rest of the path |
| `PathSetter.SetPathOverwrites` | services/csvProcessor.js:17 | writing the same path twice is the same as writing it once with the second value |
| `RecordBuilder.Split` | services/csvProcessor.js:24 | the pieces are at least one, contain no separator, and join back to the input |
| `RecordBuilder.SplitCount` | services/csvProcessor.js:24 | the number of pieces is the number of separators plus one |
| `RecordBuilder.SplitNoSep` | services/csvProcessor.js:24 | text without a separator splits to itself alone |
| `RecordBuilder.SplitExample` | services/csvProcessor.js:24 | `a.b` with dot-free parts splits to `[a, b]` |
| `RecordBuilder.Classify` | services/csvProcessor.js:26-29 | a cell becomes a number exactly when it is non-empty and parses, with the parsed value; otherwise it stays the raw text |
| `RecordBuilder.SetPathOneKey` | services/csvProcessor.js:17 | a header without a dot sets a plain property |
| `RecordBuilder.SetPathTwoKeys` | services/csvProcessor.js:10-17 | a one-dot header updates the child object with one property |
| `RecordBuilder.BuildNestedObject` | services/csvProcessor.js:21-34 | the result is `BuildResult`: the record of all columns in order, or the first column's error |
| `RecordBuilder.FirstThrowAt` | services/csvProcessor.js:23-31 | the build fails if and only if some column throws, and then with the error of the first such column |
| `RecordBuilder.FirstThrowSticks` | services/csvProcessor.js:23-31 | once a column has thrown, later columns do not change the error |
| `RecordBuilder.ShallowHeadersBuild` | services/csvProcessor.js:23-31 | with headers of at most one dot the build always succeeds |
| `RecordBuilder.BuildStep` | services/csvProcessor.js:23-31 | each column applies `SetPath` of its split header and classified cell to the record built so far |
| `RecordBuilder.LastColumnReaches` | services/csvProcessor.js:31 | the last column's value can be read back at its header path when nothing blocks it |
| `RecordBuilder.RepeatedHeaderLaterWins` | services/csvProcessor.js:23-31 | for a header repeated at columns i < j, once column j is written on an unblocked path, that path reads column j's cell, whatever column i wrote |
| `RecordBuilder.LaterColumnsKeep` | services/csvProcessor.js:23-31 | a column's value still reads back after later columns whose paths are neither a prefix nor an extension of its own |
| `RecordBuilder.TwoLevelExample` | services/csvProcessor.test.js:18-28 | two one-dot headers sharing a prefix and two plain headers build a two-level record |
| `RecordBuilder.JaneDoeExample` | services/csvProcessor.test.js:18-28 | the Jane Doe line builds the nested record with age as the number 30 |
| `Rows.TransformForDb` | services/db.js:12-29 | the projection fails exactly when `name` is missing; otherwise it gives the joined name, `age` as read, `address` only when truthy, and every other property unchanged in `additional_info` |
| `Rows.TransformAll` | services/db.js:42 | mapping a batch succeeds exactly when every record has a name, giving one row per record; otherwise it fails with the missing-name error |
| `Rows.TransformAllPointwise` | services/db.js:42 | row i is the projection of record i |
| `Rows.TransformAllAppend` | services/db.js:42 | projecting two batches one after the other gives the concatenation of their rows |
| `Rows.JaneDoeRow` | services/db.js:12-29 | the Jane Doe record becomes the row "Jane Doe", 30, NULL address, `{gender: "female"}` |
| `Rows.RowParams` | services/db.js:53-58 | each row contributes four parameters |
| `Rows.FlatParams` | services/db.js:48-59 | the parameters of n rows number 4n |
| `Rows.FlatParamsAt` | services/db.js:53-58 | parameter 4k+j is field j of row k |
| `Rows.DecodeFlatParams` | services/db.js:53-58 | reading the flat parameters back four at a time recovers the rows |
| `Rows.DecodedIsLayout` | services/db.js:53-58 | any parameter list that reads back as some rows is exactly the flat layout of those rows |
| `Store.Effect` | services/db.js:66-77 | ROLLBACK discards pending rows; failed statements change nothing; CONNECT and RELEASE leave the data alone; the table changes only through a successful TRUNCATE, COMMIT or auto-committed INSERT |
| `Store.Database.Request` | services/db.js:66-73 | a request is appended to the log, takes the next scripted reply, and changes the state by `Effect` |
| `Store.Database.ReleaseClient` | services/db.js:77 | releasing the client is logged and never fails |
| `Store.InsertInTransaction` | services/db.js:70 | an insert inside a transaction adds the decoded rows to the pending rows |
| `Store.InsertRowsInTransaction` | services/db.js:70 | an insert of the flat parameters of some rows adds exactly those rows to the pending rows |
| `Store.CommittedInsertAppends` | services/db.js:69-71 | BEGIN, INSERT and COMMIT appends the rows to the table and closes the transaction |
| `Db.Decimal` | services/db.js:50 | the printed number is a non-empty string of digits |
| `Db.NatOfDecimal` | services/db.js:50 | reading the printed number back gives the number |
| `Db.ParamNumberOfDollar` | services/db.js:50 | placeholder `$p` names parameter p |
| `Db.Placeholders` | services/db.js:48-51 | there is one placeholder group per row |
| `Db.PlaceholdersAt` | services/db.js:46-51 | group k starts at parameter 4k+1 |
| `Db.PlaceholderBindsField` | services/db.js:44-59 | placeholder j of group k names parameter 4k+j+1, which holds field j of row k |
| `Db.BuildInsertQuery` | services/db.js:44-64 | the loop yields the insert text for the number of rows and the flat parameters of the rows |
| `Db.TryThree` | services/db.js:68-71 | BEGIN, INSERT and COMMIT are sent in order up to and including the first that fails, whose error is the outcome; all three are sent on success |
| `Db.TransactionShape` | services/db.js:66-78 | a failed connect sends nothing more and passes its error on; otherwise RELEASE comes last and only once, and every command but RELEASE uses one reply; COMMIT is sent only after BEGIN and INSERT succeeded; the batch commits exactly when all four replies pass, and the exchange is then CONNECT, BEGIN, INSERT, COMMIT, RELEASE |
| `Db.TransactionRollback` | services/db.js:72-78 | ROLLBACK is sent exactly when a statement fails after the client was obtained, right after that statement and after every earlier request succeeded; a failing ROLLBACK's error replaces the statement's |
| `Db.BatchExchangeSucceeds` | services/db.js:37-79 | a non-empty batch succeeds exactly when every record has a name and the four requests of its transaction pass; it then sends CONNECT, BEGIN, the INSERT of its rows, COMMIT, RELEASE and uses four replies; a nameless record fails with the missing-name error and sends nothing |
| `Db.RunStatements` | services/db.js:68-71 | BEGIN, INSERT and COMMIT are sent up to the first failure; on success the table gains the rows and no transaction stays open; on failure the table is unchanged |
| `Db.SendInTransaction` | services/db.js:66-78 | the commands sent and the outcome are those of `Transaction`; the table gains the rows exactly on success; the client is always released |
| `Db.InsertUsersBatch` | services/db.js:37-79 | an empty batch sends nothing; a nameless record fails before a client is taken; otherwise the exchange is `Transaction`'s; the table gains the batch's rows exactly on success; with an accepting server and named records it succeeds |
| `Accumulator.ConcatChunks` | services/dataImporter.js:11-31 | the batches, put back together, are the records in order |
| `Accumulator.ChunkSizes` | services/dataImporter.js:11-31 | every batch but the last is full, and the last is non-empty and at most full |
| `Accumulator.ChunkCount` | services/dataImporter.js:11-31 | n records make ceil(n / size) batches |
| `Accumulator.ChunksOfFull` | services/dataImporter.js:11-31 | full batches followed by a short remainder are exactly the batches of their concatenation |
| `Accumulator.FiveInTwos` | services/dataImporter.js:11-31 | five records in batches of two are [[a, b], [c, d], [e]] |
| `Accumulator.FinalBatches` | services/dataImporter.js:27-31 | the full batches and the non-empty remainder are the batches of all the records, and their number is ceil(n / size) |
| `Accumulator.FlushExtendsTable` | services/dataImporter.js:16 | inserting one more batch extends the rows by that batch's rows |
| `Accumulator.FlushAdvances` | services/dataImporter.js:16-17 | after a successful insert the table holds the rows of every batch inserted so far |
| `Accumulator.ConcatSnoc` | services/dataImporter.js:12-17 | one more batch adds its records after those of the earlier batches |
| `Accumulator.CommittedAllLength` | services/dataImporter.js:16 | named batches inserted one after the other send five commands each |
| `Accumulator.CommittedOne` | services/db.js:66-78 | an inserted batch's third command is the INSERT of exactly its rows |
| `Accumulator.CommittedAllPrefix` | services/dataImporter.js:16 | the commands of the first batches inserted begin the commands of all of them |
| `Accumulator.CommittedAllAt` | services/dataImporter.js:16 | batch i's transaction is commands 5i to 5i+4 of the log, right after those of the batches before it, and its INSERT carries exactly batch i's rows |
| `Accumulator.CommittedSnoc` | services/dataImporter.js:16 | inserting one more batch appends its five commands to the log |
| `Accumulator.LoggedStep` | services/dataImporter.js:16 | the log after one more inserted batch is the log of all batches inserted so far |
| `Accumulator.BatchAccumulator.constructor` | services/dataImporter.js:9 | the buffer starts empty, with nothing delivered or inserted |
| `Accumulator.BatchAccumulator.RecordedAfter` | services/dataImporter.js:16-17 | after an insert of the buffer, the table holds the rows of every batch inserted so far, the buffer included |
| `Accumulator.BatchAccumulator.LoggedAfter` | services/dataImporter.js:16-17 | after an insert of the buffer, the log holds one committed transaction per batch inserted so far, the buffer's last |
| `Accumulator.BatchAccumulator.FailedAfter` | services/dataImporter.js:16 | a failed insert of the buffer leaves the log of the earlier batches followed by the buffer's own exchange |
| `Accumulator.BatchAccumulator.FailedExchange` | services/dataImporter.js:16 | after a failed insert, the log is the committed transactions of the batches inserted, then the failed call's exchange, whose error is the outcome |
| `Accumulator.BatchAccumulator.DrainedAfter` | services/dataImporter.js:27-31 | full batches followed by the remainder, once all were sent, drain the buffer in ceil(n / size) batches |
| `Accumulator.BatchAccumulator.DrainedWhenSent` | services/dataImporter.js:27-31 | an empty buffer whose inserted batches are the batches of everything delivered means everything reached the table |
| `Accumulator.BatchAccumulator.Flush` | services/dataImporter.js:16-17 | the database sees exactly one insertUsersBatch call for the buffer, and the result is that call's outcome; on success the buffer joins the inserted batches and is emptied; on failure buffer and table are unchanged; a nameless record fails with the missing-name error and sends nothing; with an accepting server and named records it succeeds |
| `Accumulator.BatchAccumulator.OnData` | services/dataImporter.js:11-19 | the record joins the buffer; a buffer below the size sends nothing; a full buffer is sent as one insertUsersBatch call whose outcome is the result, and is emptied on success or left full on failure |
| `Accumulator.BatchAccumulator.FinalFlush` | services/dataImporter.js:27-31 | an empty buffer sends nothing; otherwise the remainder is sent as one insertUsersBatch call whose outcome is the result; on success every delivered record reached the table in ceil(n / size) batches |
| `CsvStream.HeaderOnlyDeliversNothing` | services/csvProcessor.js:60-64 | an input with no data lines delivers no records |
| `CsvStream.AcceptedIndicesExactly` | services/csvProcessor.js:66-71 | a line is accepted if and only if its cell count equals the header count |
| `CsvStream.AcceptedIndicesIncreasing` | services/csvProcessor.js:59-71 | accepted lines are taken in input order |
| `CsvStream.RecordsAtAcceptedIndices` | services/csvProcessor.js:66-76 | if no line throws, record j is the record built from the j-th accepted line, and there is one record per accepted line |
| `CsvStream.RecordsOfSnoc` | services/csvProcessor.js:66-76 | one more line adds its record when it builds, adds nothing when skipped, stops the stream with its error when it throws, and changes nothing after a stop |
| `CsvStream.RecordsOfPrefix` | services/csvProcessor.js:59-77 | the records of the first lines are a prefix of the records of all lines |
| `CsvStream.DataRecordsPrefix` | services/csvProcessor.js:59-77 | the records read so far are a prefix of the input's records |
| `CsvStream.StoppedAfter` | services/csvProcessor.js:73-84 | stopping early delivers a prefix of the records; stopping at a throwing line delivers everything the whole input delivers, with the same error |
| `CsvStream.HaltSticks` | services/csvProcessor.js:73-84 | after a line has thrown, later lines neither add records nor change the error |
| `CsvStream.HaltAt` | services/csvProcessor.js:73-84 | a stream that stops has a first throwing line, with no earlier throw, whose error is the stream's, and whose records are all records read |
| `CsvStream.ShallowHeadersNeverHalt` | services/csvProcessor.js:73 | with headers of at most one dot no line throws |
| `CsvStream.DeliverLine` | services/csvProcessor.js:66-76 | a skipped line sends nothing; a throwing line fails with its error and sends nothing; a built record goes to the buffer, and only a full buffer can fail |
| `CsvStream.ProcessCsv` | services/csvProcessor.js:37-86 | a prefix of the input's records is delivered in order; if no callback fails, all are delivered and the result is the first build error, else the read error, else success; if a callback fails, the result is the error of the buffer's failed insert; with an accepting server and named records no callback fails |
| `DataImporter.Failed` | services/dataImporter.js:36-39 | a caught error is reported as failure with its message |
| `DataImporter.FinishImport` | services/dataImporter.js:27-34 | the log gains one committed transaction per batch inserted, then the failed call, if any, whose error is reported; the inserted and failed records are all records, in order; success means all records reached the table, cut into batches of the buffer's size |
| `DataImporter.LoadRecords` | services/dataImporter.js:25-34 | the log gains one committed transaction per batch inserted, then the failed call, if any, whose error is reported; the table gains the rows of those batches, a prefix of the records; success means all of them, in ceil(n / 1000) batches, and a clean stream end |
| `DataImporter.ImportCsvData` | services/dataImporter.js:6-40 | TRUNCATE is sent first, and a failing TRUNCATE ends the import with its error and the table unchanged; otherwise the log is TRUNCATE, one committed transaction per batch inserted, then the failed call, if any, whose error is reported; a nameless record is reported with the missing-name error after the batches before it; the table holds exactly the rows of the inserted batches, a prefix of the records; with an accepting server and named records the result is decided by the stream's end alone |

## Left out

- `app.js`, `index.js` and `config.js`: the HTTP routes, the server start-up and the configuration are not part of this model.
- The age report query of `services/db.js` (lines 81-131) is not part of this model.
- The `pg` pool's construction and its connection settings (`services/db.js:4-10`): the pool is the `Database` object.
- File and stream I/O: the file is the lines it yields plus one optional read error after them. `crlfDelay` and the line splitting of `readline` are outside the model.
- The `error` events of the file stream and of `readline`: a read error is modelled as arriving after the lines read. A race between such an event and an error thrown by a callback is not modelled; the callback's error wins in the model.
- JavaScript numbers: a number is a real. `Number(text)` and number-to-text are left uninterpreted. `Infinity`, `-0` and floating-point rounding are not modelled.
- Inherited properties: keys such as `toString` or `__proto__` are ordinary keys here. Own properties of primitives (a string's `length` and character indices) are not modelled: reading any key of a string or number gives `undefined`.
- `async` / `await`: everything runs in sequence, which is the order the code awaits things in.
- `console` logging is not modelled.
- Property order of objects is not modelled: records are maps.
- A `null` or `undefined` batch passed to `insertUsersBatch` is not modelled: the importer never passes one.
- Objects are values: nested objects are rebuilt rather than shared by reference. The code never aliases them, since every intermediate object is created fresh.
- `processCSV` takes its callback as a parameter; the model fixes the callback to the importer's batch buffer, its only caller.
- The batch buffer is created after the TRUNCATE rather than before it; nothing observable depends on the order.
- `buildNestedObject` is modelled for as many cells as headers, which is the only way `processCSV` calls it.
- The server is a model with scripted replies, not PostgreSQL. `undefined` parameters are sent as SQL `NULL`. Releasing a client never fails. The server is not modelled as refusing further statements inside an aborted transaction.
