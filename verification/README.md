# libpqxx client core and metrics registry: a model and its proofs

This project models, and proves properties of, the parts of the repository that carry state and
arithmetic: the query pipeline, SQL cursors and cursor streams, the COPY text codec over the glyph
scanners of fifteen encodings, the transaction state machine, the conversions of integers, dates and
SQL arrays, and the concurrent metrics registry.

One module per component:

- `Server`, `PipelineState`, `Pipeline`: the pipeline as a class whose bounds into an ordered map of
  queries are updated in place.  The server is an arbitrary function from the history of a session to
  an answer, and busy or not is arbitrary at every moment.  `PipelineState` has the invariant and each
  transition as a value; the methods of `Pipeline.Pipeline` are proved to do those transitions.
- `SqlCursor`, `QueryEnd`: the bookkeeping of a cursor's position against the cursor in the backend, random access
  on top of it, and the search for the end of a cursor's query.
- `CursorStream`: a stream that shares one cursor among a doubly linked list of iterators, on the heap.
- `Encodings`, `CopyText`: the glyph scanners and finders; the writer and the reader of COPY lines.
- `Transaction`: commit, abort, close, execution, focus and pending errors, where every exchange with
  the server may end in any way.
- `Strconv`, `Dates`, `ArrayParser`: text conversions.
- `Metrics`: the registry, and threads that take their lock-protected steps in any order.

Where the code does not do what its documentation or its own comments say, the model follows the code:

- `pipeline::flush()` is documented to clear any error, but leaves the error fence up.  A query inserted
  after it can be retrieved if and only if no failure had come before it (`Pipeline.QueryAfterFlush`);
  `Pipeline.StaleError` is a run where it cannot, on a connection that is never lost.
- The id that means "no error" can be given to a query, but never be retrieved
  (`Pipeline.LimitNotRetrieved`); no other id is special in `Pipeline.Retrieved`.
- When the replay of a refused batch gets no answer to a query, that query is reported to have failed
  with the batch's error, though the server may never have run it (`PipelineState.SilentStep`).  That is
  the only way to an error that is not the server's (`Pipeline.TrueError`).
- Retrieving rows in reverse from the very end gives one row too many, and in no other case
  (`SqlCursor.FetchFromStart`).
- The displacement that a cursor hands back is wrong exactly when it is moved further out past an end
  that the client does not know of (`SqlCursor.AdjustFollows`).
- JOHAB checks its first byte twice instead of the second, MULE_INTERNAL its second twice instead of
  the third, and one behind its last instead of the last (`QueryEnd.JohabDiffers`, `QueryEnd.MuleDiffers`,
  `Encodings.LocalExcept`); `QueryEnd.ScansAgree` says exactly when that makes a difference.  The
  four-byte form of MULE_INTERNAL therefore never occurs in valid text.
- A line feed that JOHAB takes for the second half of a character goes out unescaped in a COPY line
  (`CopyText.JohabBreaks`); in no encoding but these two can that happen (`CopyText.CleanAt`).
- Text after a null in a COPY line is dropped, where a comment expects a crash (`CopyText.TextBack`).
- When a field of a row is malformed, the fields before it stay in the writer's buffer and end up in
  the next line (`CopyText.FieldLeft`); that line is read back as its own fields if and only if the rows
  that failed before it left nothing (`CopyText.NextRowBack`).
- Queries with parameters and prepared statements are sent even after the transaction has ended
  (`Transaction.Transaction.ExecParams`).
- A failed commit leaves the transaction registered until it is closed (`Transaction.Transaction.Commit`).
- Converting a number without a sign reads on as long as there are digits, beyond the end of the text
  (`Strconv.RunsOn`).  `Strconv.ExtentMatters` says exactly when that makes a difference.
- A year beyond 16 bits is narrowed instead of refused: the year found is the year written if and only
  if it is in the range (`Dates.YearAsWritten`).
- A backslash in a bare array element does not protect a separator (`ArrayParser.BackslashIgnored`);
  `ArrayParser.BareBack` says exactly which strings can be written bare.

Assumptions about what is outside the model: a server that refuses a batch as a whole also fails one of
its queries when they are run one by one; each string given to the pipeline is a single statement, and
the session is used by the pipeline alone; a batch that cannot be sent does not reach the server; text is
followed by a NUL; the connection is lost, and a query run by itself unanswered, any finite number of
times; whitespace is that of the C locale; a year outside the range of `std::chrono::year`, whose value
the standard leaves open, is narrowed to 16 bits.

## Model

| member | source | states |
|---|---|---|
| Server.BatchAnswers | libpqxx-7.7.5/src/pipeline.cxx:192-222 | the k-th reply to a batch is the server's answer to its k-th statement, given all statements before it; only the last reply can be a failure |
| Server.Session.StartExec | libpqxx-7.7.5/src/pipeline.cxx:204-215 | sending a batch, with the dummy query in front when there are several statements: what the server then has done, and which replies are on their way, or that nothing was sent; that this is the step the invariant is proved for is `Pipeline.OutcomeIsSend` |
| Server.Session.GetResult | libpqxx-7.7.5/src/pipeline.cxx:232-245 | replies come in order, and then a null that ends the batch |
| Server.Session.Exec | libpqxx-7.7.5/src/pipeline.cxx:338-354 | a statement run by itself is answered on top of everything run so far, and rolled back if it fails; or there is no answer, and the server may or may not have run it; each silence is on record |
| Server.Session.ConsumeInput | libpqxx-7.7.5/src/pipeline.cxx:412-425 | reading from the socket fails only when the connection is lost, which it is a given number of times |
| PipelineState.SuccIsNext | libpqxx-7.7.5/src/pipeline.cxx:250-266 | the next key of the map is the next query in the order answered, pending, waiting |
| PipelineState.FileKeeps | libpqxx-7.7.5/src/pipeline.cxx:247-266 | filing a reply under the oldest pending query keeps the whole invariant, and the reply is that query's own answer |
| PipelineState.GiveUpKeeps | libpqxx-7.7.5/src/pipeline.cxx:236-245 | when no reply is left, the fence goes up at the oldest pending query if there is one; all invariants hold, and the server has indeed failed an earlier query |
| PipelineState.SendKeeps | libpqxx-7.7.5/src/pipeline.cxx:201-221 | sending all waiting queries keeps the invariant: every reply on its way belongs to the pending query in its place |
| PipelineState.SendAttends | libpqxx-7.7.5/src/pipeline.cxx:201-221 | sending leaves the pipeline registered with its transaction, even if the server refuses the batch |
| PipelineState.InsertKeeps | libpqxx-7.7.5/src/pipeline.cxx:70-82 | adding a query keeps the invariant |
| PipelineState.EraseKeeps | libpqxx-7.7.5/src/pipeline.cxx:402-405 | taking out an answered query keeps the invariant, and no bound refers to it |
| PipelineState.ClearKeeps | libpqxx-7.7.5/src/pipeline.cxx:109-121 | forgetting all queries once nothing is pending keeps the invariant |
| PipelineState.DummyKeeps | libpqxx-7.7.5/src/pipeline.cxx:277-305 | absorbing a good dummy reply keeps the invariant |
| PipelineState.TakeBackKeeps | libpqxx-7.7.5/src/pipeline.cxx:318-332 | taking back a refused batch keeps the invariant, with the batch's queries waiting again in their order |
| PipelineState.ReplayKeeps | libpqxx-7.7.5/src/pipeline.cxx:338-353 | replaying one query keeps the invariant: it ends with its own answer, and a failure puts the fence right behind it |
| PipelineState.SilentKeeps | libpqxx-7.7.5/src/pipeline.cxx:338-354 | a replay that ends without an answer keeps the invariant too: the query keeps the error of the batch, and the fence goes up right behind it |
| PipelineState.ReplayStep | libpqxx-7.7.5/src/pipeline.cxx:334-345 | after i successful replays the culprit of the batch is still the one it was from the start; a failure blames exactly that query; replaying is no refusal |
| PipelineState.SilentStep | libpqxx-7.7.5/src/pipeline.cxx:347-354 | if there is no answer, that query is blamed: it comes no later than the culprit |
| PipelineState.DummyFalls | libpqxx-7.7.5/src/pipeline.cxx:307-354 | after a refused batch has been replayed, the query blamed is the first of the batch that fails, or the one that got no answer, and then none before it fails; queries before it have their own rows, it has a failure, the later ones are fenced off, and the count of waiting queries is exact |
| Pipeline.IssueKeeps | libpqxx-7.7.5/src/pipeline.cxx:192-222 | issuing makes all waiting queries pending if no error is set, and sends nothing otherwise; the invariant holds |
| Pipeline.ObtainKeeps | libpqxx-7.7.5/src/pipeline.cxx:232-267 | reading one reply keeps the invariant; there are never more replies than pending queries, nor two for one query |
| Pipeline.OutcomeIsSend | libpqxx-7.7.5/src/pipeline.cxx:204-221 | what the server does with the batch is what the model of sending says |
| Pipeline.PlainExecution | libpqxx-7.7.5/src/pipeline.cxx:192-267 | while nothing has been rolled back, a query's answer is the one it would get if the same queries were executed one after the other |
| Pipeline.TrueError | libpqxx-7.7.5/src/pipeline.cxx:402-408 | an error means that the server failed that very query, or that its text was run by itself without an answer; if every query that was run by itself got an answer, it is always the former |
| Pipeline.TrueFence | libpqxx-7.7.5/src/pipeline.cxx:225-243 | the fence is up because the last thing the server did was to fail a query before it, unless there was no answer to such a query |
| Pipeline.OnceInOrder | libpqxx-7.7.5/src/pipeline.cxx:183-222 | no query is run twice, and queries run in the order of their ids |
| Pipeline.FailsIf | libpqxx-7.7.5/src/pipeline.cxx:192-245 | sending a batch will raise the fence exactly if the server refuses it, or if a query other than its last is the first to fail when the queries are run one after the other |
| Pipeline.SendDoomed | libpqxx-7.7.5/src/pipeline.cxx:192-245 | that is settled as soon as the batch has been sent |
| Pipeline.AnsweredExactly | libpqxx-7.7.5/src/pipeline.cxx:136-144 | a query is answered exactly if nothing is left to receive, or its id is below both the first bound and the fence |
| Pipeline.Pipeline.constructor | libpqxx-7.7.5/src/pipeline.cxx:36-41 | a new pipeline is empty and valid |
| Pipeline.Pipeline.ObtainResult | libpqxx-7.7.5/src/pipeline.cxx:232-267 | one step of receiving; its internal errors cannot occur |
| Pipeline.Pipeline.GetFurtherAvailableResults | libpqxx-7.7.5/src/pipeline.cxx:412-418 | takes one reply each time that the connection is not busy, and stops only when it is, or when there are no more; whatever it says |
| Pipeline.Pipeline.Collect | libpqxx-7.7.5/src/pipeline.cxx:205-209 | the texts from one bound to the other, in order |
| Pipeline.Pipeline.SendWaiting | libpqxx-7.7.5/src/pipeline.cxx:201-221 | the bounds, counts and queries after sending, and that nothing changes if it fails |
| Pipeline.Pipeline.Issue | libpqxx-7.7.5/src/pipeline.cxx:192-222 | issues all waiting queries, or nothing once there has been an error; if they cannot be sent they go on waiting |
| Pipeline.Pipeline.Mark | libpqxx-7.7.5/src/pipeline.cxx:318-321 | gives every query of a range the same result, and no other |
| Pipeline.Pipeline.Execute | libpqxx-7.7.5/src/pipeline.cxx:340-343 | runs a query outside the pipeline, with or without an answer |
| Pipeline.Pipeline.Blame | libpqxx-7.7.5/src/pipeline.cxx:347-354 | both bounds move past the query, and the fence goes up behind it unless it is lower already |
| Pipeline.Pipeline.ReplayOne | libpqxx-7.7.5/src/pipeline.cxx:338-354 | replays one query: its answer replaces the error of the batch, and a failure or no answer raises the fence |
| Pipeline.Pipeline.ReplayNext | libpqxx-7.7.5/src/pipeline.cxx:338-354 | one round of the replay: on with the next query, or this one is blamed |
| Pipeline.Pipeline.ReplayBatch | libpqxx-7.7.5/src/pipeline.cxx:334-354 | the query blamed is the first that fails, unless an answer failed to come before that; if every replay succeeds, the second bound is left behind the first |
| Pipeline.Pipeline.TakeBack | libpqxx-7.7.5/src/pipeline.cxx:318-335 | the queries of the failed batch wait again, all with its error |
| Pipeline.Pipeline.Replay | libpqxx-7.7.5/src/pipeline.cxx:307-354 | take back and replay: one query is blamed, and every later one is fenced off |
| Pipeline.Pipeline.ObtainDummy | libpqxx-7.7.5/src/pipeline.cxx:270-355 | reads the dummy's reply and, if the batch failed, replays it |
| Pipeline.Pipeline.ReceiveIfAvailable | libpqxx-7.7.5/src/pipeline.cxx:421-433 | receives what there is: afterwards nothing is pending, or the connection is busy; a lost connection loses no query |
| Pipeline.Pipeline.Receive | libpqxx-7.7.5/src/pipeline.cxx:436-448 | receives up to a query: afterwards it is answered or fenced off; it terminates |
| Pipeline.Pipeline.ReceivePending | libpqxx-7.7.5/src/pipeline.cxx:436-448 | afterwards nothing is pending |
| Pipeline.Pipeline.AddQuery | libpqxx-7.7.5/src/pipeline.cxx:73-82 | the fields after adding a query; that this keeps the invariant and puts the query last in the order is `PipelineState.InsertKeeps` |
| Pipeline.Pipeline.Insert | libpqxx-7.7.5/src/pipeline.cxx:70-93 | adds the query at the end; while few enough wait nothing is sent, and when too many wait the server is not left idle, and what is pending is looked at; afterwards the pipeline holds its transaction, unless a refused batch was replayed meanwhile; fails exactly if ids have run out or the connection is lost, which then is lost just once; the first query of a pipeline that has met no failure will not be fenced off |
| Pipeline.Pipeline.Resume | libpqxx-7.7.5/src/pipeline.cxx:171-180 | afterwards something is pending, nothing waits, or there has been an error; and nothing is pending, or the connection has been asked and was busy |
| Pipeline.Pipeline.Retain | libpqxx-7.7.5/src/pipeline.cxx:155-168 | sets the bound on waiting queries, and leaves nothing waiting idle once it is reached; below it nothing is sent; refuses negative numbers |
| Pipeline.Pipeline.Complete | libpqxx-7.7.5/src/pipeline.cxx:96-106 | everything is answered or fenced off, and the focus is given up; with nothing pending and no error before, the fence is up afterwards exactly if the batch of waiting queries meets a failure |
| Pipeline.Pipeline.Retrieve | libpqxx-7.7.5/src/pipeline.cxx:358-409 | a result is the server's own answer to that very query, or an error if the server failed it or its replay got no answer (`Pipeline.TrueError`); no query at or above the fence is ever retrieved, neither where the fence was before nor where it is afterwards; unknown and fenced queries are refused, a query alone is never fenced, a retrieved query is gone, and the server is not left idle; when the answer is there already, the connection is asked for more; it is broken off exactly if the connection is lost |
| Pipeline.LimitNotRetrieved | libpqxx-7.7.5/include/pqxx/pipeline.hxx:172-180 | the id that means that there is no error is never retrieved: it is refused exactly as if it were fenced off |
| Pipeline.Pipeline.RetrieveOldest | libpqxx-7.7.5/src/pipeline.cxx:147-152 | retrieves the oldest query; an empty pipeline is an error |
| Pipeline.Pipeline.Flush | libpqxx-7.7.5/src/pipeline.cxx:109-121 | all queries are gone; a fence that is up keeps its place, and with nothing pending it stays down; afterwards it is up exactly if it was, or if what was still coming in meets a failure, unless the last id has been given out |
| Pipeline.QueryAfterFlush | libpqxx-7.7.5/include/pqxx/pipeline.hxx:92-102 | unless the connection is lost or ids have run out, a query that is inserted after a flush can be retrieved if and only if before the flush no failure had raised the fence, nor was one coming in from the pending queries; with the last id it never can |
| Pipeline.StaleError | libpqxx-7.7.5/include/pqxx/pipeline.hxx:92-102 | a run in which a batch fails, the pipeline is flushed, and the next query is refused although the server would answer it |
| Pipeline.Pipeline.IsFinished | libpqxx-7.7.5/src/pipeline.cxx:136-144 | true exactly if the query's reply is stored |
| Pipeline.Pipeline.IssueIfIdle | libpqxx-7.7.5/src/pipeline.cxx:398-400 | the server is not left idle; nothing else changes |
| Pipeline.MakeCall | libpqxx-7.7.5/src/pipeline.cxx:70-180 | any single call does what its method does, and its outcome belongs to the query that was asked for; it is broken off exactly if the connection is lost |
| Pipeline.MadeGone | libpqxx-7.7.5/src/pipeline.cxx:402-405 | a query that has been retrieved is gone, and does not come back |
| Pipeline.MadeHeld | libpqxx-7.7.5/src/pipeline.cxx:57-120 | which calls take hold of the transaction and which let it go; a replay, and nothing else, takes it away meanwhile |
| Pipeline.MadeLog | libpqxx-7.7.5/src/pipeline.cxx:70-93 | only inserting adds to the log, and it adds that text as long as there are ids |
| Pipeline.Run | libpqxx-7.7.5/src/pipeline.cxx:70-180 | any calls in any order, with any timing: each outcome is that of its call, made one after the other; every result is the server's answer to the query that was asked for, and no query is retrieved twice; every error is the server's failure of that query if no query that was run by itself went unanswered; the log has the texts inserted, in order; as many calls are broken off as the connection is lost; whether the pipeline holds its transaction in the end follows from the calls if no refused batch was replayed |
| SqlCursor.AdjustFollows | libpqxx-7.7.5/src/sql_cursor.cxx:172-224 | the client's arithmetic never meets an internal error and follows the backend; and exactly when the displacement is right |
| SqlCursor.MoveAllNeedsFewerRows | libpqxx-7.7.5/src/sql_cursor.cxx:172-224 | moving to the end keeps a true position if and only if the result set is smaller than the number that stands for all rows |
| SqlCursor.SqlCursor.Declare | libpqxx-7.7.5/src/sql_cursor.cxx:92-128 | a cursor of one's own starts in front of the first row and knows it; its query is `QueryEnd.TrimQuery` |
| SqlCursor.SqlCursor.Adopt | libpqxx-7.7.5/src/sql_cursor.cxx:131-143 | an adopted cursor does not know its position |
| SqlCursor.SqlCursor.Close | libpqxx-7.7.5/src/sql_cursor.cxx:146-159 | closes an owned cursor once |
| SqlCursor.SqlCursor.Adjust | libpqxx-7.7.5/src/sql_cursor.cxx:172-224 | the method agrees with the bookkeeping function, error by error |
| SqlCursor.SqlCursor.Fetch | libpqxx-7.7.5/src/sql_cursor.cxx:227-240 | the rows passed, the new true position, and what the client knows of it; the displacement handed back is the true one if and only if the cursor was not moved further out past an end that the client did not know of |
| SqlCursor.SqlCursor.Move | libpqxx-7.7.5/src/sql_cursor.cxx:243-258 | the same without the rows |
| SqlCursor.Size | libpqxx-7.7.5/src/cursor.cxx:49-55 | the true number of rows |
| SqlCursor.SliceClamps | libpqxx-7.7.5/src/cursor.cxx:65-71 | clamping the end does not change which rows are meant |
| SqlCursor.MoveToStart | libpqxx-7.7.5/src/cursor.cxx:73-74 | the first move ends just before the first row wanted, in the reading direction |
| SqlCursor.FetchFromStart | libpqxx-7.7.5/src/cursor.cxx:73-75 | from there the right rows are fetched, but one too many exactly when reading in reverse from the very end |
| SqlCursor.FetchFromEnd | libpqxx-7.7.5/src/cursor.cxx:73-75 | reading in reverse from the very end gives one row more than was asked for |
| SqlCursor.Retrieve | libpqxx-7.7.5/src/cursor.cxx:58-76 | whatever was retrieved before: exactly the rows asked for, or the range error; with the one extra row in the case above |
| CursorStream.BlockPassed | libpqxx-7.7.5/src/cursor.cxx:123-130 | fetching a stride passes exactly one block |
| CursorStream.BypassedLinks | libpqxx-7.7.5/src/cursor.cxx:161-181 | bypassing one iterator leaves a well-formed list of exactly the others |
| CursorStream.MultiplesApart | libpqxx-7.7.5/src/cursor.cxx:184-209 | two different block positions are at least a stride apart |
| CursorStream.AddTodo | libpqxx-7.7.5/src/cursor.cxx:189-200 | the to-do list stays sorted by position |
| CursorStream.Stream.FetchBlock | libpqxx-7.7.5/src/cursor.cxx:123-130 | reads the next block and advances by its length, wherever the stream is |
| CursorStream.Stream.Ignore | libpqxx-7.7.5/src/cursor.cxx:133-140 | skips rows, as far as there are any; the blocks stay aligned if it skips whole strides |
| CursorStream.Stream.Forward | libpqxx-7.7.5/src/cursor.cxx:143-147 | the requested position moves by whole strides |
| CursorStream.Stream.InsertIterator | libpqxx-7.7.5/src/cursor.cxx:150-158 | the iterator is at the head of a well-formed list |
| CursorStream.Stream.RemoveIterator | libpqxx-7.7.5/src/cursor.cxx:161-181 | exactly that iterator is gone from a well-formed list |
| CursorStream.Stream.Collect | libpqxx-7.7.5/src/cursor.cxx:189-200 | the to-do list: exactly the iterators between the two positions, in order |
| CursorStream.Stream.ReadAt | libpqxx-7.7.5/src/cursor.cxx:204-206 | the block at a position ahead, skipping what is between; the cursor fetches just that block |
| CursorStream.Stream.FillAt | libpqxx-7.7.5/src/cursor.cxx:207-208 | all iterators at the position get the block |
| CursorStream.Stream.ServiceIterators | libpqxx-7.7.5/src/cursor.cxx:184-209 | every attached iterator up to the position has exactly its own block, others are untouched; by the record of the cursor itself exactly the blocks are fetched that some iterator there wants, none of them twice; the stream is done exactly if one wants rows past the end |
| CursorStream.Stream.GrownValid | libpqxx-7.7.5/src/cursor.cxx:215-232 | a new iterator keeps the stream valid if and only if it does not need a block already passed |
| CursorStream.Stream.NewSound | libpqxx-7.7.5/src/cursor.cxx:215-222 | a fresh iterator is sound if and only if the stream has not passed the requested position |
| CursorStream.Stream.ShrunkValid | libpqxx-7.7.5/src/cursor.cxx:161-181 | without one of its iterators the stream is still valid |
| CursorStream.Stream.Advanced | libpqxx-7.7.5/src/cursor.cxx:262-277 | after an iterator has moved ahead the stream is still valid |
| CursorStream.Stream.Apart | libpqxx-7.7.5/src/cursor.cxx:280-303 | two streams have no iterator in common |
| CursorStream.Stream.Join | libpqxx-7.7.5/src/cursor.cxx:225-232 | a copy joins the stream of its original |
| CursorStream.Stream.Leave | libpqxx-7.7.5/src/cursor.cxx:235-240 | an iterator leaves; all others stay |
| CursorStream.Iterator.Attach | libpqxx-7.7.5/src/cursor.cxx:215-222 | creation on a stream: exactly when the stream stays valid |
| CursorStream.Iterator.Copy | libpqxx-7.7.5/src/cursor.cxx:225-232 | a copy has its original's position and rows |
| CursorStream.Iterator.Destroy | libpqxx-7.7.5/src/cursor.cxx:235-240 | the stream keeps exactly the others |
| CursorStream.Iterator.Assign | libpqxx-7.7.5/src/cursor.cxx:280-303 | assignment, within one stream or from one to another, keeps both valid and their lists exact |
| CursorStream.Iterator.Advance | libpqxx-7.7.5/src/cursor.cxx:262-277 | moves to the new requested position without rows; refuses negative numbers |
| CursorStream.Iterator.Get | libpqxx-7.7.5/src/cursor.cxx:328-339 | reading gives exactly the block at the iterator's position, and fetches no block that no iterator up to there wants |
| Encodings.Width | libpqxx-7.7.5/src/encodings.cxx:80-612 | a glyph is inside the text and at most four bytes; ASCII bytes are glyphs by themselves in every encoding |
| Encodings.Scan | libpqxx-7.7.5/src/encodings.cxx:181-612 | inside the text a scanner reports an error or a boundary strictly later and within the text; behind it, that there is no more |
| Encodings.OneByte | libpqxx-7.7.5/src/encodings.cxx:80-612 | which bytes are glyphs by themselves |
| Encodings.TwoBytes | libpqxx-7.7.5/src/encodings.cxx:181-612 | the glyphs of two bytes in each encoding, by their lead and trail bytes |
| Encodings.ThreeBytes | libpqxx-7.7.5/src/encodings.cxx:222-612 | likewise of three |
| Encodings.FourBytes | libpqxx-7.7.5/src/encodings.cxx:300-612 | likewise of four, which in MULE_INTERNAL depends on the byte behind them |
| Encodings.LocalExcept | libpqxx-7.7.5/src/encodings.cxx:181-612 | a glyph is recognised by its own bytes whatever follows, except exactly for four-byte glyphs of MULE_INTERNAL |
| Encodings.OwnBytes | libpqxx-7.7.5/src/encodings.cxx:181-612 | the same bytes in front of other text are the same glyph |
| Encodings.ValidLocal | libpqxx-7.7.5/src/encodings.cxx:490-495 | in valid MULE_INTERNAL text that exception never occurs |
| Encodings.GlyphInContext | libpqxx-7.7.5/src/encodings.cxx:181-612 | the glyphs of valid text stay the same in front of other text |
| Encodings.ValidConcat | libpqxx-7.7.5/src/encodings.cxx:181-612 | valid text followed by valid text is valid |
| Encodings.StandardGlyph | libpqxx-7.7.5/src/encodings.cxx:556-612 | every character of section 4 of RFC 3629 is scanned as one glyph, whatever follows |
| Encodings.GlyphStandard | libpqxx-7.7.5/src/encodings.cxx:556-612 | the scanner's glyphs are those characters, exactly but for overlong forms, surrogates and what lies beyond the last code point |
| Encodings.FindString | libpqxx-7.7.5/src/encodings.cxx:819-836 | the first occurrence at a glyph boundary, none, or the first malformed glyph; a search for one byte is the same loop with a needle of length one |
| Encodings.FindChar | libpqxx-7.7.5/include/pqxx/internal/encodings.hxx:44-71 | the first single-byte glyph among the characters, or the end |
| Encodings.OccursAtBoundary | libpqxx-7.7.5/src/encodings.cxx:802-836 | in valid UTF-8 an occurrence is at a glyph boundary if and only if it does not begin with a continuation byte |
| Encodings.FinderIsPlainSearch | libpqxx-7.7.5/src/encodings.cxx:802-836 | in valid UTF-8 searching by glyphs is plain byte search, both ways |
| Encodings.CharFinderIsPlainSearch | libpqxx-7.7.5/include/pqxx/internal/encodings.hxx:44-71 | likewise for ASCII characters |
| Encodings.Utf8Glyph | libpqxx-7.7.5/src/encodings.cxx:556-612 | continuation bytes are exactly those after a glyph's first |
| QueryEnd.FindQueryEnd | libpqxx-7.7.5/src/sql_cursor.cxx:59-88 | backwards: the least end after which only whitespace and semicolons remain; forwards: the end of the last useful glyph; an error exactly on malformed text |
| QueryEnd.ForwardFindsLeast | libpqxx-7.7.5/src/sql_cursor.cxx:72-85 | the forward scan finds the least end in all valid text, but in JOHAB and MULE_INTERNAL |
| QueryEnd.ScansAgree | libpqxx-7.7.5/src/sql_cursor.cxx:59-88 | in any encoding and any text, the forward scan finds what the backward scan finds if and only if that does not split a glyph |
| QueryEnd.LeastIsUseful | libpqxx-7.7.5/src/sql_cursor.cxx:59-88 | the least end is the end of the last useful glyph exactly in that case |
| QueryEnd.TrimQuery | libpqxx-7.7.5/src/sql_cursor.cxx:105-111 | the query without its useless end; refused exactly if it is empty, malformed, or nothing is left; what is cut off are white space and semicolons, in bytes, and none is left at the end but in two encodings |
| QueryEnd.CutOff | libpqxx-7.7.5/src/sql_cursor.cxx:60-88 | so does what either scan finds |
| QueryEnd.LastByte | libpqxx-7.7.5/src/encodings.cxx:200-612 | only JOHAB and MULE_INTERNAL let a glyph end with a byte that is whitespace or a semicolon |
| QueryEnd.JohabDiffers | libpqxx-7.7.5/src/encodings.cxx:437-442 | a JOHAB text for which the two scans differ: the second byte is never looked at |
| QueryEnd.MuleDiffers | libpqxx-7.7.5/src/encodings.cxx:479-485 | a MULE_INTERNAL text for which they differ: the third byte is never looked at |
| CopyText.RoundTrip | libpqxx-7.7.5/src/stream_to.cxx:58-69 | a row of at least one nullable field of valid text is parsed back from its line exactly, in every encoding |
| CopyText.LineInjective | libpqxx-7.7.5/src/stream_to.cxx:58-69 | different rows have different lines, except that the row without fields looks like one empty text |
| CopyText.RoundTripEmpty | libpqxx-7.7.5/src/stream_to.cxx:58-69 | that exception |
| CopyText.TextBack | libpqxx-7.7.5/src/stream_from.cxx:221-302 | escaped text is read back as it was; after a null it is dropped |
| CopyText.GlyphBack | libpqxx-7.7.5/src/stream_from.cxx:224-301 | each glyph is read back, even if it contains backslash or tab bytes |
| CopyText.FieldBack | libpqxx-7.7.5/src/stream_from.cxx:232-248 | a field ends at its tab |
| CopyText.FieldCount | libpqxx-7.7.5/src/stream_from.cxx:232-248 | there is one field more than there are unescaped tabs |
| CopyText.TabsEndFields | libpqxx-7.7.5/src/stream_to.cxx:58-69 | in the line of a row exactly the unescaped tabs end fields |
| CopyText.Escapes | libpqxx-7.7.5/src/stream_to.cxx:108-127 | the seven escapes in bytes, and how each is read; every other ASCII character stands for itself |
| CopyText.CleanAt | libpqxx-7.7.5/src/stream_to.cxx:130-170 | in clean text no backspace, line feed, vertical tab, form feed or carriage return is at a glyph boundary; and nowhere else in any encoding but JOHAB and MULE_INTERNAL |
| CopyText.LineClean | libpqxx-7.7.5/src/stream_to.cxx:130-170 | the line of any row is clean |
| CopyText.LeftoverClean | libpqxx-7.7.5/src/stream_to.cxx:130-170 | so is whatever failed rows leave in front of it |
| CopyText.JohabBreaks | libpqxx-7.7.5/src/encodings.cxx:437-442 | a JOHAB text that is written with a line feed in the line |
| CopyText.EscapeStep | libpqxx-7.7.5/src/stream_to.cxx:149-166 | copying stretches is the same as escaping glyph by glyph |
| CopyText.RemainsAt | libpqxx-7.7.5/include/pqxx/stream_to.hxx:389-399 | what a failed row leaves behind: the fields before the first malformed one, and a prefix of that one's escaped text |
| CopyText.FlushedBack | libpqxx-7.7.5/src/stream_to.cxx:130-170 | that prefix is read as the part of the field that was kept |
| CopyText.NextRowBack | libpqxx-7.7.5/include/pqxx/stream_to.hxx:244-248 | whatever rows failed before: the next line is read back as exactly its own fields if and only if they left nothing |
| CopyText.FieldLeft | libpqxx-7.7.5/include/pqxx/stream_to.hxx:244-248 | a row of two fields fails at the second; the next row, of one field, is read back as two fields |
| CopyText.Writer.EscapeFieldToBuffer | libpqxx-7.7.5/src/stream_to.cxx:130-170 | appends the field glyph by glyph escaped, and a tab; fails exactly on malformed text, and then the buffer has exactly what came before the last unfinished stretch |
| CopyText.Writer.AppendToBuffer | libpqxx-7.7.5/include/pqxx/stream_to.hxx:317-372 | a null is \N, everything else is escaped; what is in the buffer after a failure |
| CopyText.Writer.FillBuffer | libpqxx-7.7.5/include/pqxx/stream_to.hxx:389-399 | all fields of a row in order; after a failure, exactly what `CopyText.RemainsAt` says |
| CopyText.Writer.WriteBuffer | libpqxx-7.7.5/src/stream_to.cxx:58-69 | the line is the buffer without its last tab |
| CopyText.Writer.WriteRow | libpqxx-7.7.5/include/pqxx/stream_to.hxx:244-248 | what is written is parsed back exactly if and only if the buffer was empty; the line has no line break or other control character but the tabs, save inside a glyph in JOHAB and MULE_INTERNAL; after a malformed field the buffer keeps exactly what was rendered of the row |
| CopyText.Reader.ParseLine | libpqxx-7.7.5/src/stream_from.cxx:175-199 | the outcome is that of the parsing function; views lie in the buffer in order, without overlap, each with a NUL behind it |
| CopyText.Reader.Unescape | libpqxx-7.7.5/src/stream_from.cxx:201-316 | the buffer of one byte more than the line is never exceeded, and the views show exactly the fields |
| CopyText.Reader.EndField | libpqxx-7.7.5/src/stream_from.cxx:232-248 | ending a field, null or text |
| CopyText.Reader.CopyGlyph | libpqxx-7.7.5/src/stream_from.cxx:300-304 | copies the bytes of a larger glyph |
| CopyText.ShownGrows | libpqxx-7.7.5/src/stream_from.cxx:194-199 | what is written later does not disturb earlier views |
| CopyText.EscapeTrack | libpqxx-7.7.5/src/stream_from.cxx:250-292 | a backslash: escapes, nulls and their two errors |
| CopyText.Reader.ReadEscape | libpqxx-7.7.5/src/stream_from.cxx:250-292 | the byte that an escape stands for, or a null, which fails anywhere but at the start of a field |
| Transaction.Transaction.Start | libpqxx-7.7.5/src/transaction.cxx:24-30 | registers with the connection, which has one transaction at most, and sends the command that begins the transaction, unless an error is pending; what can be seen and sent afterwards, exactly |
| Transaction.StartSends | libpqxx-7.7.5/src/transaction.cxx:24-30 | a transaction begins normally only by sending that command |
| Transaction.NeverBegins | libpqxx-7.7.5/src/transaction_base.cxx:97-531 | and no operation ever sends it again |
| Transaction.Whole | libpqxx-7.7.5/src/transaction.cxx:24-30 | over every whole run, which is what the machine of operations makes of it: the first command sent is the one that begins the transaction, and the only one of its kind |
| Transaction.Transaction.DoCommit | libpqxx-7.7.5/src/transaction.cxx:60-107 | in doubt exactly if completion is unknown or the connection is gone |
| Transaction.Transaction.Commit | libpqxx-7.7.5/src/transaction_base.cxx:97-165 | every status and error case, with the error that each throws; committed exactly if acknowledged; in doubt exactly if unknown or lost; a server may have committed an aborted transaction exactly if its reply was lost on a connection that stayed open; nothing is sent if the loss was noticed; the registration is given up exactly on success |
| Transaction.Transaction.Attempt | libpqxx-7.7.5/src/transaction_base.cxx:146-164 | the commit itself: the new status, the error and the registration, by what came of the exchange |
| Transaction.Transaction.Abort | libpqxx-7.7.5/src/transaction_base.cxx:168-212 | always ends aborted and closed; the rollback is not sent if an error is pending |
| Transaction.Transaction.Close | libpqxx-7.7.5/src/transaction_base.cxx:342-389 | terminates in a closed state, and lets the connection go |
| Transaction.Transaction.Exec | libpqxx-7.7.5/src/transaction_base.cxx:240-265 | runs only in an active transaction with nothing else in focus, and gives the focus back |
| Transaction.Transaction.ExecParams | libpqxx-7.7.5/src/transaction_base.cxx:307-322 | checks the focus only: neither status nor pending errors |
| Transaction.Transaction.DirectExec | libpqxx-7.7.5/src/transaction_base.cxx:435-448 | sends nothing if an error is pending |
| Transaction.Transaction.RegisterFocus | libpqxx-7.7.5/src/transaction_base.cxx:409-415 | one focus at a time; what it is for is `Transaction.Step`: no commit is sent while there is one |
| Transaction.Transaction.UnregisterFocus | libpqxx-7.7.5/src/transaction_base.cxx:418-432 | only the focus itself is unregistered |
| Transaction.Transaction.RegisterPendingError | libpqxx-7.7.5/src/transaction_base.cxx:451-473 | the first error is kept; what it is for is `Transaction.Transaction.DirectExec` and `Transaction.Transaction.Commit`: nothing is sent while there is one |
| Transaction.Transaction.CheckPendingError | libpqxx-7.7.5/src/transaction_base.cxx:501-509 | a pending error is thrown once |
| Transaction.Focus.RegisterMe | libpqxx-7.7.5/src/transaction_base.cxx:518-523 | at most one focus is registered, even when registering throws |
| Transaction.Focus.UnregisterMe | libpqxx-7.7.5/src/transaction_base.cxx:526-531 | the same when unregistering |
| Transaction.Connection.RegisterTransaction | libpqxx-7.7.5/src/connection.cxx:835-840 | a second transaction is refused |
| Transaction.Connection.UnregisterTransaction | libpqxx-7.7.5/src/connection.cxx:843-856 | the connection has no transaction then |
| Transaction.Connection.Exec | libpqxx-7.7.5/src/connection.cxx:710-716 | what comes of an exchange with the server; what was sent is on record, with the state of the transaction that sent it |
| Transaction.RaisedMeans | libpqxx-7.7.5/src/connection.cxx:710-716 | which error there is for each kind of exchange |
| Transaction.Ended | libpqxx-7.7.5/src/transaction_base.cxx:97-212 | ending a transaction that has not been ended: the log then has one ending command, and it is this one |
| Transaction.Step | libpqxx-7.7.5/src/transaction_base.cxx:97-531 | one step of any kind makes of the transaction what the machine of operations says |
| Transaction.ClosedStays | libpqxx-7.7.5/src/transaction_base.cxx:97-212 | however many operations come: a closed status stays, and only queries are sent then |
| Transaction.CommittedForGood | libpqxx-7.7.5/src/transaction_base.cxx:97-212 | after a commit that returned normally the transaction remains committed, and no rollback is ever sent |
| Transaction.Run | libpqxx-7.7.5/src/transaction_base.cxx:97-531 | over every run: what can be seen and what is thrown is what the machine of operations says, step by step; closed statuses stay; at most one command ends the transaction; and by the record of the connection every commit was sent while the transaction was active, without focus, on an open connection |
| Metrics.Histogram.Observe | src/metrics.h:210-215 | count and sum stay those of the values |
| Metrics.Histogram.BucketCounts | src/metrics.h:240-266 | each bucket counts the values at most its bound; for sorted bounds the counts never decrease, and none exceeds the count of all |
| Metrics.AtMostMonotone | src/metrics.h:244-251 | a higher bound never counts fewer |
| Metrics.KeptTotal | src/metrics.h:375-403 | creating counters changes no total |
| Metrics.IncrementTotal | src/metrics.h:98-101 | an increment adds one to the totals its labels belong to |
| Metrics.SumSplit | src/metrics.h:375-403 | a total does not depend on the order of summing |
| Metrics.Registry.GetCounter | src/metrics.h:375-403 | get or create loses and resets nothing |
| Metrics.Registry.GetHistogram | src/metrics.h:405-432 | get or create loses and resets nothing; a new histogram is empty and has exactly the buckets asked for |
| Metrics.Registry.Increment | src/metrics.h:98-101 | one counter goes up by one; what that does to totals is `Metrics.IncrementTotal` |
| Metrics.Registry.Observe | src/metrics.h:210-215 | one histogram has one more observation |
| Metrics.Registry.Initialize | src/metrics.h:308-357 | loses and resets nothing, neither counters nor histograms, and all standard metrics are there, the durations with their ten buckets |
| Metrics.SeenMeans | src/metrics.h:321-340 | which counters of requests are there then, by name and labels |
| Metrics.Registry.EmplaceAll | src/metrics.h:328-340 | all combinations of method, path and status are there |
| Metrics.Advance | src/metrics.h:474-512 | one lock-protected step of a thread: the lead of the first metric over the second changes exactly with the thread's being between them |
| Metrics.CountedUnder | src/metrics.h:474-512 | under which name and labels each kind of task is counted |
| Metrics.CountStep | src/metrics.h:474-512 | counting puts a thread between its two steps |
| Metrics.FailStep | src/metrics.h:508-511 | recording the failure takes it out again |
| Metrics.StepSound | src/metrics.h:474-512 | the exact counts and the balance are kept by any thread's step |
| Metrics.Run | src/metrics.h:474-512 | in every interleaving each counter is exactly the number of times that threads have recorded it, and the durations observed are exactly those of the threads that have observed them; where each thread is follows from the schedule; the requests counted exceed the durations observed by exactly the threads between the two, and likewise failed attempts and failures; once all are done the metrics agree |
| Metrics.TasksInOrder | src/metrics.h:474-512 | the threads have the tasks that were spawned, in order |
| Metrics.Scrape | src/metrics.h:240-266 | at any moment of any run the duration histogram has ten counts, each of the threads that have observed a duration of at most that bound |
| Metrics.RecordedUpdate | src/metrics.h:98-101 | a step of one thread changes what all threads have recorded by what it recorded itself |
| Strconv.NonnegToBuf | libpqxx-7.7.5/src/strconv.cxx:69-79 | the digits and a NUL at the end of the buffer, nothing else touched |
| Strconv.NegToBuf | libpqxx-7.7.5/src/strconv.cxx:84-89 | with a minus in front |
| Strconv.BottomToBuf | libpqxx-7.7.5/src/strconv.cxx:95-122 | the lowest value, which has no positive counterpart, by way of the unsigned type |
| Strconv.ToBuf | libpqxx-7.7.5/src/strconv.cxx:157-181 | every value fits if there is room for all, else nothing is written |
| Strconv.IntoBuf | libpqxx-7.7.5/include/pqxx/internal/conversions.hxx:90-103 | the same at the start of a buffer |
| Strconv.Room | libpqxx-7.7.5/include/pqxx/internal/conversions.hxx:113-120 | the buffer size claimed suffices for every value of every width |
| Strconv.RoomNeeded | libpqxx-7.7.5/include/pqxx/internal/conversions.hxx:113-120 | and is exactly what the longest one needs, with its NUL |
| Strconv.Limits | libpqxx-7.7.5/src/strconv.cxx:408-473 | which values each type has |
| Strconv.InFront | libpqxx-7.7.5/src/strconv.cxx:420-450 | what one byte in front of a digit is taken for: a blank, a digit, a minus, or an error |
| Strconv.DigitCount | libpqxx-7.7.5/include/pqxx/internal/conversions.hxx:113-120 | numbers below a power of ten have no more digits than its exponent |
| Strconv.Digits | libpqxx-7.7.5/src/strconv.cxx:69-79 | the digits mean the number |
| Strconv.DecimalForm | libpqxx-7.7.5/src/strconv.cxx:69-89 | the digits in bytes, the least last, and the minus |
| Strconv.SafeMultiplyByTen | libpqxx-7.7.5/src/strconv.cxx:350-365 | exact, or an error exactly on overflow |
| Strconv.SafeAddDigit | libpqxx-7.7.5/src/strconv.cxx:369-377 | likewise |
| Strconv.SafeSubDigit | libpqxx-7.7.5/src/strconv.cxx:381-389 | likewise |
| Strconv.AbsorbDigitPositive | libpqxx-7.7.5/src/strconv.cxx:393-398 | no intermediate overflow: an error exactly if the result is out of range |
| Strconv.AbsorbDigitNegative | libpqxx-7.7.5/src/strconv.cxx:401-406 | likewise downwards |
| Strconv.FromString | libpqxx-7.7.5/src/strconv.cxx:408-473 | succeeds exactly on optional blanks, an optional minus for signed types, and digits in range, with their value; the text is the one to its real end, which is beyond its end exactly if it is a number without a sign and a digit follows |
| Strconv.FromNegative | libpqxx-7.7.5/src/strconv.cxx:443-460 | the digits behind a minus |
| Strconv.ExtentMatters | libpqxx-7.7.5/src/strconv.cxx:436-441 | the conversion differs from that of the text alone if and only if it is a number in range without a sign, a digit follows, and not all digits are zeros |
| Strconv.RoundTrip | libpqxx-7.7.5/src/strconv.cxx:157-181 | every value of every width is what its text is converted back to |
| Strconv.RunsOn | libpqxx-7.7.5/src/strconv.cxx:436-441 | a text that is converted together with the digit behind it |
| Strconv.PositiveDone | libpqxx-7.7.5/src/strconv.cxx:436-441 | the digits read are exactly the text, to its real end |
| Dates.YearIntoBuf | libpqxx-7.7.5/src/time.cxx:33-71 | the year of its era, at least four digits, including 32768 BC |
| Dates.ZerosIntoBuf | libpqxx-7.7.5/src/time.cxx:59-67 | the zeros in front |
| Dates.IntoBufDate | libpqxx-7.7.5/src/time.cxx:177-195 | the text of the date and a NUL, exactly if there is room |
| Dates.DateRoom | libpqxx-7.7.5/include/pqxx/time.hxx:74-80 | the buffer size asked for is exactly what the longest date needs |
| Dates.RestIntoBuf | libpqxx-7.7.5/src/time.cxx:184-194 | month, day and BC |
| Dates.FindYearMonthSeparator | libpqxx-7.7.5/src/time.cxx:154-164 | the first dash |
| Dates.YearFromBuf | libpqxx-7.7.5/src/time.cxx:74-88 | a positive year of at least four characters |
| Dates.DateFromString | libpqxx-7.7.5/src/time.cxx:197-224 | finds a date exactly if the text means one, and then that one; the 29th of February exactly in leap years |
| Dates.LeapDayRead | libpqxx-7.7.5/src/time.cxx:220-222 | the text of a 29th of February means that date if 4 divides the year, and 100 does not or 400 does, and else nothing |
| Dates.MonthLength | libpqxx-7.7.5/src/time.cxx:220-222 | how many dates there are in each month |
| Dates.FourCenturies | libpqxx-7.7.5/src/time.cxx:220-222 | any four hundred years in a row have 146097 dates |
| Dates.Form | libpqxx-7.7.5/src/time.cxx:177-195 | the text of a date in bytes |
| Dates.PaddedForm | libpqxx-7.7.5/src/time.cxx:33-71 | the year in bytes, if it has four digits or fewer |
| Dates.MeansOnce | libpqxx-7.7.5/src/time.cxx:197-224 | text means at most one date |
| Dates.DateRoundTrip | libpqxx-7.7.5/src/time.cxx:177-224 | every date from year -32767 to 32767 is what its text means |
| Dates.ReadBack | libpqxx-7.7.5/src/time.cxx:177-224 | converting the text of a date back gives that date and nothing else |
| Dates.RenderingInjective | libpqxx-7.7.5/src/time.cxx:177-195 | different dates have different texts |
| Dates.YearAsWritten | libpqxx-7.7.5/src/time.cxx:211-215 | the year found is the year written if and only if that is from -32767 to 32767 |
| Dates.YearTaken | libpqxx-7.7.5/src/time.cxx:211-215 | every year beyond that is taken for another |
| Dates.YearNarrowed | libpqxx-7.7.5/src/time.cxx:211-215 | for every date, of either era, there is a text with another year that is taken for it |
| ArrayParser.NextToken | libpqxx-7.7.5/src/array.cxx:167-237 | every step that finds something gets strictly further |
| ArrayParser.ArrayBack | libpqxx-7.7.5/src/array.cxx:167-237 | the text of any array of nulls, strings (bare with doubled backslashes, single- or double-quoted) and arrays is read back as exactly its tokens in order |
| ArrayParser.ElementBack | libpqxx-7.7.5/src/array.cxx:167-237 | an element is read back as its tokens, and then comes what is behind it |
| ArrayParser.QuotedBack | libpqxx-7.7.5/src/array.cxx:49-119 | a quoted string is found to end where it does, and has the contents it was made from |
| ArrayParser.WordEnds | libpqxx-7.7.5/include/pqxx/internal/array-composite.hxx:106-122 | a bare string with doubled backslashes ends where it should if and only if none of its glyphs is a separator or closing brace |
| ArrayParser.DoubledBack | libpqxx-7.7.5/include/pqxx/internal/array-composite.hxx:126-142 | doubled backslashes become single ones, and nothing else changes |
| ArrayParser.BareBack | libpqxx-7.7.5/src/array.cxx:167-223 | a bare string with doubled backslashes is read back if and only if it is a plain word: no separator or closing brace, no quote, opening brace or NUL in front, and not the word for null |
| ArrayParser.QuoteNotTaken | libpqxx-7.7.5/src/array.cxx:177-223 | a string that begins with a quote cannot be written bare |
| ArrayParser.BackslashIgnored | libpqxx-7.7.5/include/pqxx/internal/array-composite.hxx:106-122 | a backslash in front of a comma, and yet two tokens |
| ArrayParser.TokenBack | libpqxx-7.7.5/src/array.cxx:177-223 | the token of a single element, whatever follows |
| ArrayParser.NoSeparator | libpqxx-7.7.5/src/array.cxx:225-233 | an element never looks like a separator |
| ArrayParser.EndSkip | libpqxx-7.7.5/src/array.cxx:49-90 | searching for quotes and backslashes misses no end of a string |
| ArrayParser.Parser.ScanSingleQuotedString | libpqxx-7.7.5/src/array.cxx:49-90 | the end of the string, or an error exactly if there is none |
| ArrayParser.Parser.ScanDoubleQuotedString | libpqxx-7.7.5/include/pqxx/internal/array-composite.hxx:15-67 | likewise, with its own two-state loop |
| ArrayParser.Parser.ParseQuotedString | libpqxx-7.7.5/src/array.cxx:94-119 | the contents with escape characters skipped |
| ArrayParser.Parser.ScanUnquotedString | libpqxx-7.7.5/include/pqxx/internal/array-composite.hxx:106-122 | stops at the first separator or closing brace, whether a backslash is before it or not |
| ArrayParser.Parser.ParseUnquotedString | libpqxx-7.7.5/include/pqxx/internal/array-composite.hxx:126-142 | drops backslashes that are not doubled; `ArrayParser.DoubledBack` says what it undoes |
| ArrayParser.Parser.ReadToken | libpqxx-7.7.5/src/array.cxx:177-223 | the token at a position |
| ArrayParser.Parser.GetNext | libpqxx-7.7.5/src/array.cxx:167-237 | done exactly at the end; otherwise the next token, an error, and strict progress |
| ArrayParser.Parser.ReadAll | libpqxx-7.7.5/src/array.cxx:167-237 | calling until done terminates and gives all tokens |
| ArrayParser.ReadBack | libpqxx-7.7.5/src/array.cxx:167-237 | the parser reads any written array back as exactly its tokens |
| ArrayParser.InBytes | libpqxx-7.7.5/src/array.cxx:167-237 | an array with a letter and a null, in bytes, with either separator |
| ArrayParser.QuotedInBytes | libpqxx-7.7.5/src/array.cxx:49-119 | strings in double and in single quotes, in bytes |

## Left out

- The database, web server, logging and configuration code of the application: SQL strings, HTTP handlers and files.
- libpq itself, sockets and waiting, blobs, large objects, and the result, row and field wrappers.
- `robusttransaction` and `subtransaction`.
- `pipeline::cancel()` and the destructor: canceling leaves the dummy pending, so nothing holds afterwards.
- `Pipeline.Pipeline.ReplayBatch`: when every query of a failed batch succeeds on replay, the contract says what state results, and nothing is claimed about calls made in that state.
- The query text attached to a result: the pipeline labels every reply with the oldest query in its map.
- `Pipeline.Pipeline.Attach`: registering the pipeline with its transaction is a flag here; the rules for that are in `Transaction`.
- `SqlCursor.SqlCursor.Declare`: does not take the text of the query, which is checked and trimmed in `QueryEnd.TrimQuery`, nor the other parts of the statement that declares the cursor.
- Changes of a cursor stream's stride; comparisons of iterators.
- `CursorStream.Stream.Ignore`: skipping backwards, by a negative number, is not modelled; after a skip that breaks the alignment of the blocks the contract gives the position only.
- `CursorStream.Iterator.Attach`: on a stream that has been read beyond the requested position the contract says only that the stream is no longer valid.
- The tables that map names to encodings.
- The tuples and typed conversions around `stream_to` and `stream_from`; fields are texts or nulls here.
- `Transaction.Transaction.Commit`: a server that answers COMMIT by rolling back without an error counts as having accepted it, as in the code, which does not look at the command tag.
- Notices, and the texts of errors.
- Floating-point conversion, and the conversions of the standard library where they are used instead of the library's own.
- Composite-type fields.
- Help texts and formatting of metrics; `recordDeviceOperation`, which is like `recordDbOperation`; counters are integers and never overflow; times are real numbers.
- A metrics family is a map from labels to counts, not to counter objects, so that a reference to a counter is its name and labels.
