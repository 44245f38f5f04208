# Verification of the replica, the pool and the gateway of pglite

This project models, in Dafny, the parts of the crate `pglite` in which state, order and failure
meet, and proves what they promise. Its core is the logical-replication consumer: an upstream
PostgreSQL server streams committed transactions, the replica repeats them on a local server, and
disconnects, crashes and lost replies may come at any moment.

`dafny verify dfyconfig.toml` checks everything.

## The modules

| part | modules |
|---|---|
| the replication protocol as a state machine, and its theorems | `Protocol`, `ProtocolProof`, `ExactlyOnce`, `FirstText`, `Framing` |
| the replica itself: what one event does, and the thread that does it | `Replication`, `ReplicaThread`, `Delivery`, `Acknowledgement`, `Endings`, `Reconnect`, `LostReply` |
| the first run, statement by statement | `FirstRun`, `CopyTables` |
| upstream transactions and the statements that repeat them | `Upstream`, `Refinement`, `Identity`, `RowChanges`, `Database`, `SqlText` |
| messages of the replication stream (section 55.9 of the PostgreSQL 16 documentation) | `PgOutput`, `PgOutputCodec`, `PgOutputCursor`, `Utf8` |
| bytes and texts of these formats written out | `Forms` |
| positions, fingerprints and schema change | `Lsn`, `Fingerprint`, `ExpectedLines`, `Evolution`, `SchemaSignals`, `BootText`, `SchemaDelta` |
| the local server, and what becomes of what is sent to it | `LocalDb`, `Fates` |
| type order and security | `TypeOrder`, `Security` |
| pooled transactions and the pool | `Session`, `SessionProof`, `ApplySession`, `Pool`, `PoolRuns` |
| the socket gateway and the notification connection | `Gateway`, `Notify` |

Code that loops over fields and buffers is a class or a method with loops, proved against functions
on values; what the code is for is proved about those functions. Tables are bags of rows, statements
are text, and the meaning of a text is that of the statement a parser reads from it. Times, network
answers and server outcomes arrive as parameters: an event of the replica carries what the upstream
sent and what the local server answered.

## What the theorems take for granted

- The upstream keeps its contract: transaction ends increase, a keepalive position never overtakes a
  transaction that was not sent yet, and after a reconnect nothing above the position asked for, the
  consistent point and the positions reported is skipped. Resending anything is allowed.
- The published relations are fixed in `Protocol`; schema change is the subject of `Evolution`,
  `SchemaSignals` and `BootText`, and the schema delta of `SchemaDelta`.
- COPY data arrives in whole lines, and what a line says is a parameter: in a first run the lines of a
  table say the rows of the snapshot.
- An update or delete identifies its row: no other row is changed by its statement. `ChangeRefines`
  says that this is exactly the condition, and `DuplicateRowsDiverge` what happens without it.
- A relation message flags the columns of the replica identity with 1 and all others with 0, the two values
  that the format has.
- `ExactlyOnce` is about runs in which no process goes on after losing the reply to a COMMIT that took
  effect; it may die or halt there. In other runs safety and order still hold (`ProtocolProof.AcksAreSafe`,
  `ProtocolProof.ReplicaMirrorsUpstream`), the mirror is lost exactly when the second effect of a
  transaction changes the tables (`ProtocolProof.SecondEffectSpoilsIff`), and `LostReply` says when that is.
- Upstream tables hold their own unique columns after every single row change, so there are no deferred
  constraints.
- The server answers only what it can do: it reports a script as done only when the script runs.
- In `Session` a client sends its next statement only after a reply that is not an error, as `apply`
  does, and nobody sends transaction control as a statement. `GoingOnSplits` shows what a client that
  goes on after a lost connection would do.
- In `PoolRuns` setting the time of last use and pushing the connection are one step, and the minimum
  is at most the maximum (crates/pglite/src/multiple_process/mod.rs:240-245).
- In `Notify` a failed write ends the stream; `FailedWriteShifts` shows why this is needed.

## Where the source differs from what one might expect

- The forced flag of a catalog table is never used: row security is forced exactly when it is enabled
  (crates/pglite/src/replica/backfill.rs:1170-1192).
- After an in-process reconnect the stream loop starts again from the text read at boot
  (crates/pglite/src/replica/mod.rs:453-474). After added columns this heals by itself
  (`BootText.ReconnectRecovers`); after a schema signal that dropped a column or published a table the
  next relation message halts the replica (`BootText.SignalThenReconnect`, `BootText.DroppedColumnHalts`).
- A process that loses the reply to a COMMIT and connects again asks from the old watermark, so the
  transaction runs again. Where a statement meets a row with its key the replica halts with the tables
  right, and a restart goes on; a row without a key is there twice
  (`LostReply.RedeliveredTransaction`, `LostReply.OneStatementAgain`).
- A schema signal inside a transaction can make the transaction fail
  (`SchemaSignals.SignalInTransaction`).
- An upstream role with the name of the local owner makes every reconciliation fail: the owner is not
  among the roles looked up, so the role is created again and refused (`Security.ReconcileSecurity`).
- A command that is queued on the notification connection after its reader has left, and whose write
  succeeds all the same, waits without end (`Notify.NoOutcomeIff`).
- A relation without columns, which PostgreSQL allows, gives an INSERT that is no statement
  (`Refinement.NoColumns`).

## Model

| member | source | states |
|---|---|---|
| ExactlyOnce.EachAppliedOnce | crates/pglite/src/replica/mod.rs:453-492 | In every run (resends, keepalives, disconnects, crashes at any point including inside a COMMIT, restarts, first runs cut short after any statement, decommissions) in which no process goes on after losing the reply to a COMMIT that took effect: whenever the state row exists, each transaction with changes between the consistent point and the persisted watermark `x` was applied exactly once, in commit order, and the published local tables equal the upstream tables after exactly the transactions that end at or before `x` |
| ProtocolProof.ReplicaMirrorsUpstream | crates/pglite/src/replica/mod.rs:453-492 | In every run whatsoever, replies lost by a process that goes on included, whenever the state row exists: the persisted text reads as a position `x`; the ends applied since the slot was created are in commit order and are exactly those of the transactions with changes between the consistent point and `x`, some perhaps more than once; and the tables still mirror the upstream unless a transaction that took effect twice changed them |
| ProtocolProof.AcksAreSafe | crates/pglite/src/replica/mod.rs:516-521 | In every run, lost replies included, every transaction that ends at or before any position ever reported for the slot is in the durable store or has no changes, although keepalives and empty commits push the reported position past the watermark |
| ProtocolProof.EveryRunKeeps | crates/pglite/src/replica/mod.rs:663-890 | The invariant behind both: the store holds the upstream state of its own watermark, memory lags behind the store by at most one transaction with changes, every reported position is safe by what memory knows and against all further commits, a copy under way has run a prefix of its script, and the statements buffered for the transaction in flight repeat exactly its changes sent so far |
| ProtocolProof.MoveKeeps | crates/pglite/src/replica/mod.rs:663-890 | One arbitrary move of the upstream, the replica or a crash keeps the invariant |
| ProtocolProof.UpstreamCommitsKeeps | crates/pglite/src/replica/mod.rs:516-521 | A new upstream commit above the WAL position makes no reported position unsafe and no applied state stale |
| ProtocolProof.ConnectKeeps | crates/pglite/src/replica/mod.rs:663-685 | Wherever the upstream resumes without skipping anything above the position asked for, the consistent point and the reported positions, nothing unapplied is skipped |
| ProtocolProof.KeepaliveKeeps | crates/pglite/src/replica/mod.rs:723-735 | Between transactions a keepalive raises the position to report at least to its own, inside one it leaves it; a reply is one report, of the greater of that position and the watermark; every position stays safe even when the keepalive is ahead of the transaction being sent |
| ProtocolProof.NextText | crates/pglite/src/replica/mod.rs:804-846 | The statement made from the next announced change takes the upstream state exactly one change further |
| ProtocolProof.IdleCommitKeeps | crates/pglite/src/replica/mod.rs:847-858 | A commit at or below the watermark, or of a transaction without statements, leaves the store alone, and the position it may report stays safe |
| ProtocolProof.AppliedStoreOk | crates/pglite/src/replica/mod.rs:986-999 | Running the buffered statements and writing the end position takes the published tables from the upstream state before the transaction to the one after it, among any other local tables, and adds exactly its end to the applied ones; a transaction applied again is the last one applied |
| ProtocolProof.LostReplyKeeps | crates/pglite/src/replica/mod.rs:986-999 | When COMMIT took effect and its reply is lost, whether the process dies then or goes on, the store is one transaction ahead of memory and every position reported stays safe by what memory knows |
| ProtocolProof.SecondEffectSpoilsIff | crates/pglite/src/replica/mod.rs:847-861 | A transaction that takes effect again on tables that mirror the upstream leaves them a mirror if and only if it changes nothing |
| ProtocolProof.NextIsLast | crates/pglite/src/replica/mod.rs:847-861 | With memory behind the store, the next transaction applied can only be the one applied last |
| ProtocolProof.CopyStatementKeeps | crates/pglite/src/replica/backfill.rs:690-758 | Each DROP, CREATE and COPY statement of a first run leaves the tables at the next prefix of its script and writes no state row |
| ProtocolProof.CopyIsSnapshot | crates/pglite/src/replica/backfill.rs:690-758 | Whatever tables the copy found, those of earlier attempts included, after its last statement the published tables, keys included, are the snapshot of the consistent point |
| ProtocolProof.FinishCopyKeeps | crates/pglite/src/replica/mod.rs:606-661 | Writing the state row after the last statement, and nothing else, leaves a store at the snapshot of the consistent point |
| ProtocolProof.BootKeeps | crates/pglite/src/replica/mod.rs:589-604 | A restarted process continues from the persisted watermark text |
| ProtocolProof.FirstRunCompletes | crates/pglite/src/replica/mod.rs:606-661 | From any start there is a run that creates the slot, runs every statement of the copy in turn, writes the state row and boots at the consistent point |
| FirstRun.ScriptMakesTheCopy | crates/pglite/src/replica/backfill.rs:690-758 | From any tables the whole script runs if and only if no two rows of a table's COPY data clash in its keys, and then it leaves each published table with its columns, its keys and exactly the rows of its data, and every other table alone |
| FirstRun.FirstCopy | crates/pglite/src/replica/backfill.rs:690-758 | The loops of bootstrap and copy, one statement at a time: on success the tables are the copy, a failure leaves those after some first statements of the script, and a server that refuses only what it cannot run does it all |
| SchemaDelta.RemakeTable | crates/pglite/src/replica/backfill.rs:707-719 | One table dropped, created with its primary key and indexed, up to the statement that fails; on success it is there as defined, whatever was there before |
| FirstRun.TableIsFilled | crates/pglite/src/replica/backfill.rs:741-756 | Loading the batches of a table adds the rows of all its chunks |
| Framing.ScriptFrames | crates/pglite/src/replica/mod.rs:986-999 | A script that runs on the published tables does the same among other tables and leaves those alone |
| ProtocolProof.AppliedInOrder | crates/pglite/src/replica/mod.rs:847-879 | The ends of the transactions with changes in an interval are strictly increasing |
| ProtocolProof.OneMoreApplied | crates/pglite/src/replica/mod.rs:847-879 | Applying the next transaction adds its own end to the applied ones and no other |
| FirstText.IntrospectedWorldIsGood | crates/pglite/src/replica/mod.rs:687-695 | A fingerprint written for introspected tables whose names have no bar or line break gives every published relation its own line, as the stream loop expects it |
| Delivery.DeliveredIsApplied | crates/pglite/src/replica/mod.rs:737-879 | Begin, any inserts, updates, deletes and truncates, and Commit, delivered as bytes over announced relations and applied by the server: the tables go from the upstream state before the transaction to the one after, the watermark and the reportable position reach its end, the transaction is closed, and one announcement with its xid, positions, time and row changes goes to subscribers |
| Delivery.MessagesAreBuffered | crates/pglite/src/replica/mod.rs:804-846 | After Begin and any row and truncate messages the buffer holds their statements and their row changes, each in message order |
| Delivery.EachChangeIsTold | crates/pglite/src/replica/mod.rs:863-879 | Of an announced transaction each change is told to subscribers: one report for a row change with the values of its row, one for each table emptied |
| Delivery.CommitAnnounces | crates/pglite/src/replica/mod.rs:863-879 | A commit announces its transaction, with its xid, positions, time and changes, exactly when it is applied and there are changes to report |
| Reconnect.NextConnectionReportsWatermark | crates/pglite/src/replica/mod.rs:484-488 | After a connection that failed, the first position reported on the next one is the watermark, which has not fallen, and from there the reports never descend |
| Reconnect.TurnsAscend | crates/pglite/src/replica/mod.rs:453-492 | Over any number of connections the watermark never falls |
| Acknowledgement.KeepaliveIsReported | crates/pglite/src/replica/mod.rs:516-521 | After a keepalive outside a transaction every report until the connection ends is its position or more, and the watermark or more; if it asks for a reply there is such a report |
| Acknowledgement.CommitIsReported | crates/pglite/src/replica/mod.rs:847-862 | After a commit whose transaction was empty or was applied, every report until the connection ends is its end or more, and the watermark or more |
| Acknowledgement.StepReports | crates/pglite/src/replica/mod.rs:704-735 | The status timer and a keepalive that asks for a reply add exactly one report, every other event none; it is the watermark or the acknowledged position after the event, and not below either; neither falls, and a new value is a keepalive position or a commit end that the event names |
| Acknowledgement.CommitMoves | crates/pglite/src/replica/mod.rs:847-862 | A commit moves both positions to its end when it is applied, the reported one alone when it was empty, and neither when it is skipped, refused or its reply is lost |
| Acknowledgement.ReportsComeFrom | crates/pglite/src/replica/mod.rs:516-521 | Each report on a connection is a position held at its start or named by one of its events, and there are as many reports as events that call for one |
| Acknowledgement.ProcessReports | crates/pglite/src/replica/mod.rs:453-492 | Over any number of connections every report of a process is the persisted position it started from, or one named to it by a keepalive or a commit |
| Endings.TurnEndsIff | crates/pglite/src/replica/mod.rs:453-514 | A turn ends for good if and only if a stop was asked for; in another try if and only if its connection failed by an I/O error, an ended stream, or one of 55006, 57P01, 57P02 and 57P03; and it halts by exactly the other errors, an invalidated slot (55000) as halted replica |
| Endings.EventEnds | crates/pglite/src/replica/mod.rs:704-890 | An event stops the loop if and only if it is the stop, and ends it in an error if and only if that is the error its answer, its bytes or the state give, listed case by case |
| Endings.UnannouncedRowHalts | crates/pglite/src/replica/mod.rs:804-833 | A row change whose relation was not announced on this connection halts the replica with a protocol error, whatever earlier connections announced |
| LostReply.RedeliveredTransaction | crates/pglite/src/replica/mod.rs:847-861 | The reply to the COMMIT of any transaction is lost in an I/O error, the same process connects again, and the upstream sends the transaction again. If a statement of its script then meets a row with its key, the replica halts on error 23505 with the store as it was; otherwise the script has its effect a second time. A restarted process skips the transaction in either case |
| LostReply.OneStatementAgain | crates/pglite/src/replica/mod.rs:986-999 | One statement run again on what it made: an INSERT is refused if and only if its row has a key, and otherwise its row is there once more; an UPDATE, DELETE or TRUNCATE leaves it as it is |
| LostReply.RefusedIff | crates/pglite/src/replica/mod.rs:986-999 | A script that ran once is refused on tables of the same shape if and only if one of its statements, after those before it, puts a row beside one with its key |
| LostReply.KeyedRowsStaySingle | crates/pglite/src/replica/backfill.rs:681-686 | No script makes rows that clash, so a row with a key is there once at most, however often its transaction is delivered |
| LostReply.KeyChangeCollides | crates/pglite/src/replica/mod.rs:986-999 | A transaction that gives a row another key and inserts a row with the old one is refused at its UPDATE when it is delivered again |
| ReplicaThread.Replica.Run | crates/pglite/src/replica/mod.rs:453-492 | The loop of connections over the fields ends as specified for the attempts, with the acknowledged position taken back after each failed connection; `Endings.TurnEndsIff` says by which causes it retries, stops or halts |
| ReplicaThread.Replica.StreamLoop | crates/pglite/src/replica/mod.rs:663-890 | The stream loop over its events computes the specified state, starting from the fingerprint text and a first status message |
| ReplicaThread.Replica.HandleEvent | crates/pglite/src/replica/mod.rs:704-890 | One turn of the loop does what is specified for the event; `Endings.EventEnds` and `Acknowledgement.StepReports` say by which errors it ends and what it reports |
| ReplicaThread.Replica.HandleCommit | crates/pglite/src/replica/mod.rs:847-879 | Skip at or below the watermark, acknowledge an empty transaction, or apply, advance both positions and announce |
| ReplicaThread.Replica.HandleRelation | crates/pglite/src/replica/mod.rs:747-803 | Known line: remember the relation; additive change: add columns, replace the line, persist the text; otherwise halt |
| ReplicaThread.Replica.HandleTruncate | crates/pglite/src/replica/mod.rs:834-846 | One statement for all targets and one row change each, or a protocol error |
| ReplicaThread.Replica.HandleDdl | crates/pglite/src/replica/mod.rs:892-921 | A schema signal runs the delta on the local server and leaves the publication's tables, the new text when it differs as a bag of lines, and only relations still published |
| ReplicaThread.Replica.Apply | crates/pglite/src/replica/mod.rs:986-999 | BEGIN, the statements, the watermark and COMMIT run one by one until a reply is an error; the store has all of it or nothing of it, as those replies decide |
| ReplicaThread.RunTransaction | crates/pglite/src/replica/mod.rs:986-999 | The transaction statement by statement: what is committed is the whole script with its watermark, exactly when COMMIT took effect |
| Fates.EffectIffCommitted | crates/pglite/src/transaction.rs:17-94 | A transaction whose client stops at the first error takes effect if and only if every command before COMMIT was done and COMMIT took effect |
| ReplicaThread.Replica.AddedColumns | crates/pglite/src/replica/mod.rs:950-984 | The added columns reach the table up to the ALTER that failed |
| ExpectedLines.OldLines | crates/pglite/src/replica/mod.rs:899 | The collected lines are those of the map, each as often as it occurs, in whatever order the map yields them |
| Evolution.RelationKeepsAgreement | crates/pglite/src/replica/mod.rs:747-803 | An accepted relation message leaves the map, the local columns and the persisted text in step; the table has exactly the message's columns and its line is the message's |
| Evolution.StreamKeepsAgreement | crates/pglite/src/replica/mod.rs:704-890 | Over any part of a stream, rows and commits included, every line stays that of its local table and the persisted text reads back as the same map |
| Evolution.FirstTextAgrees | crates/pglite/src/replica/backfill.rs:137-149 | Tables created from an introspection and the text written for it start in step |
| Evolution.StreamGrows | crates/pglite/src/replica/mod.rs:747-803 | Over any part of a stream without schema signals, local columns are only added, at the end |
| SchemaSignals.SignalKeepsStep | crates/pglite/src/replica/mod.rs:892-921 | A schema signal that is absorbed leaves exactly the introspected tables in the map, with their columns locally and their lines in the text, and tables never published untouched |
| SchemaSignals.SignalLeavesRelations | crates/pglite/src/replica/mod.rs:892-921 | A schema signal leaves the open transaction, the positions and the persisted watermark alone, and every relation known on the connection that it does not forget |
| SchemaSignals.PublishedRelationsStay | crates/pglite/src/replica/mod.rs:904-921 | A relation stays known after a signal if and only if its table is among those introspected or no line changed |
| SchemaSignals.StreamKeepsStep | crates/pglite/src/replica/mod.rs:704-890 | Over any part of a stream, schema signals included, every line says the columns of its local table and the persisted text reads back as the map |
| SchemaSignals.SignalInTransaction | crates/pglite/src/replica/mod.rs:804-879 | A schema signal inside a transaction takes columns away at once; when a statement buffered before names one of them, the transaction is rejected at its COMMIT whatever the server answers |
| BootText.FreshAcceptsIff | crates/pglite/src/replica/mod.rs:747-803 | On a new connection a relation is accepted if and only if the boot text has its table and the columns of that line come first in the message; otherwise the replica halts |
| BootText.OneRecovered | crates/pglite/src/replica/mod.rs:747-803 | After added columns only, a message with the local columns or more is accepted: it restores the line of its table, adds what the table lacks, and changes nothing else |
| BootText.ReconnectRecovers | crates/pglite/src/replica/mod.rs:687-695 | After added columns only, a connection that starts from the boot text is back in step once every table was announced, with no change to any table |
| BootText.SignalThenReconnect | crates/pglite/src/replica/mod.rs:892-921 | After an absorbed schema signal the new relation is accepted on the same connection, and on a new one if and only if the boot text has the table with no column that is gone |
| BootText.DroppedColumnHalts | crates/pglite/src/replica/mod.rs:453-474 | A process that boots with a table of two columns of which the second is dropped goes on, but halts on the next relation message after a mere reconnect |
| Evolution.ScriptsKeepColumns | crates/pglite/src/replica/mod.rs:986-999 | No script of row statements changes tables or columns |
| Refinement.ChangeRefines | crates/pglite/src/replica/mod.rs:152-303 | From the upstream pre-image, the statement made for an insert, update or delete message gives the upstream post-image if and only if it changes no row but the one meant and the post-image of an insert or update has no clash; the message shows the row by the columns of the replica identity, a set of names that the relation message marks with flags 1 and 0; unchanged TOAST cells keep their value |
| Refinement.WhereSelects | crates/pglite/src/replica/mod.rs:184-246 | On the key path and the FULL path the WHERE clause selects a row if and only if it agrees, NULL with NULL only, with every reported pair |
| Refinement.AssignSent | crates/pglite/src/replica/mod.rs:257-269 | Setting the sent cells turns the old row into the new one when the cells not sent did not change |
| Refinement.DuplicateRowsDiverge | crates/pglite/src/replica/mod.rs:193-212 | With FULL identity and two equal rows, one upstream delete removes both locally |
| Refinement.NoColumns | crates/pglite/src/replica/mod.rs:152-181 | The insert made for a relation without columns is not a statement |
| Identity.WhereNames | crates/pglite/src/replica/mod.rs:184-246 | On the key path the conditions name exactly the identity columns, those flagged 1 in the relation message and not those flagged 0; on the FULL path exactly the columns sent; each is null-safe there, and `=` or `IS NULL` on the key path |
| Identity.WhereOutcome | crates/pglite/src/replica/mod.rs:184-246 | A WHERE clause is built unless the arity is wrong, an identity column or the whole FULL image was not sent (protocol error), or there is no tuple or no identity (the replica halts) |
| Identity.ReportTells | crates/pglite/src/replica/mod.rs:152-303 | The change reported for a described message is of its kind and table; its key names the row before by the identity or the sent columns, its row gives the sent columns of the row after, and every other column is as before |
| Upstream.StatementRepeats | crates/pglite/src/replica/mod.rs:152-303 | Every announced change, truncates of several tables included, is repeated by its statement |
| Upstream.TransactionRepeats | crates/pglite/src/replica/mod.rs:986-999 | Over any sequence of inserts, updates, deletes and truncates, the statements reach the upstream state after the whole sequence |
| Upstream.EffectsKeepFit | crates/pglite/src/replica/mod.rs:134-137 | Upstream changes keep every table one that its relation describes |
| RowChanges.InsertSql | crates/pglite/src/replica/mod.rs:152-181 | The text and the row change of an insert, or a protocol error for wrong arity or an unchanged cell |
| RowChanges.WhereClause | crates/pglite/src/replica/mod.rs:184-246 | The loops build the text and the pairs of the specified clause for FULL image, key image or new tuple, or the specified refusal; `Identity.WhereNames` and `Identity.WhereOutcome` say which those are |
| RowChanges.UpdateSql | crates/pglite/src/replica/mod.rs:248-286 | The text and the row change of an update, skipping unchanged cells, or the error |
| RowChanges.DeleteSql | crates/pglite/src/replica/mod.rs:288-303 | The text and the row change of a delete, or the error |
| SqlText.ParseInvertsPrint | crates/pglite/src/replica/mod.rs:26-40 | A parser for the generated statements recovers target, columns, values and conditions from the text, whatever quotes or keywords they contain, if and only if no list is empty |
| SqlText.QuotedBack | crates/pglite/src/replica/mod.rs:26-32 | A quoted identifier or literal is read back up to its closing quote for every content |
| SqlText.ListBack | crates/pglite/src/replica/mod.rs:152-181 | A separated list of items that read back is read back |
| SqlText.TruncateBack | crates/pglite/src/replica/mod.rs:834-846 | A TRUNCATE of any targets is read back |
| Forms.UpdateText | crates/pglite/src/replica/mod.rs:270-275 | The text of an update, written out; likewise for the other statements and conditions in `Forms` |
| PgOutputCursor.Decode | crates/pglite/src/replica/pgoutput.rs:153-274 | The cursor decoder returns, on every byte string, the message or error of the grammar |
| PgOutputCodec.DecodeInvertsEncode | crates/pglite/src/replica/pgoutput.rs:153-274 | Every well-formed message comes back from its encoding, whatever bytes follow |
| PgOutputCodec.StrictPrefixFails | crates/pglite/src/replica/pgoutput.rs:75-82 | Every strict prefix of an encoding is an error |
| PgOutputCodec.PrefixFree | crates/pglite/src/replica/pgoutput.rs:153-274 | No encoding is a strict prefix of another |
| PgOutputCodec.DecodeAcceptsExactly | crates/pglite/src/replica/pgoutput.rs:153-274 | A message is accepted if and only if the bytes start with a well-formed encoding of it |
| PgOutputCodec.CellsBack | crates/pglite/src/replica/pgoutput.rs:121-151 | A tuple's cells come back, NULL, unchanged and text |
| PgOutputCodec.CstrBack | crates/pglite/src/replica/pgoutput.rs:108-119 | A string without NUL comes back up to its terminator |
| Forms.BigEndian | crates/pglite/src/replica/pgoutput.rs:84-106 | Numbers of two and four bytes are big-endian |
| Forms.UpdateBytes | crates/pglite/src/replica/pgoutput.rs:153-274 | The bytes of an update with a key image, written out; likewise for every other kind of message in `Forms` |
| Utf8.DecodeEncode | crates/pglite/src/replica/pgoutput.rs:114-116 | UTF-8 text comes back from its bytes |
| Utf8.NulFree | crates/pglite/src/replica/pgoutput.rs:108-119 | The bytes of a text contain the terminator if and only if the text contains NUL |
| Lsn.RoundTrip | crates/pglite/src/replica/meta.rs:8-20 | Every position is read back from its text |
| Lsn.AcceptedIsPrinted | crates/pglite/src/replica/meta.rs:8-20 | An accepted text is the printed form of its value if and only if it is canonical, and reprinting gives a canonical text of the same value |
| Forms.PositionText | crates/pglite/src/replica/meta.rs:8-20 | A position is written as two upper-case hexadecimal halves without padding |
| Fingerprint.ParseLineBack | crates/pglite/src/replica/backfill.rs:122-135 | A line gives back its table and columns if and only if no name contains a bar; colons are allowed |
| Fingerprint.AdditiveMeansPrefix | crates/pglite/src/replica/backfill.rs:641-666 | Additive with count n if and only if the n old columns are a prefix of the new ones; incompatible otherwise |
| Fingerprint.ClassifySchemaChange | crates/pglite/src/replica/backfill.rs:641-666 | The loop over both column lists classifies by that prefix test |
| Fingerprint.FingerprintLine | crates/pglite/src/replica/backfill.rs:122-135 | The loop prints the line |
| Fingerprint.BuildExpected | crates/pglite/src/replica/mod.rs:687-695 | The loop over the text builds the map, later lines winning |
| Fingerprint.LastLineWins | crates/pglite/src/replica/mod.rs:687-695 | The map has a table if and only if a line is about it, and the last such line |
| Fingerprint.ReloadRebuilds | crates/pglite/src/replica/mod.rs:768-782 | A map of tidy lines, written sorted and read again, is the same map |
| Fingerprint.TextIsSorted | crates/pglite/src/replica/mod.rs:776-784 | The persisted text has the line of every table once, in the order of their code points |
| Forms.FingerprintText | crates/pglite/src/replica/backfill.rs:122-135 | The line of a table of two columns, written out |
| Forms.TextLines | crates/pglite/src/replica/mod.rs:687-695 | A line feed ends a line and takes a carriage return before it along |
| Fingerprint.LinesOfJoined | crates/pglite/src/replica/mod.rs:687-695 | Joined lines without line breaks are split again |
| SchemaDelta.ApplySchemaDelta | crates/pglite/src/replica/backfill.rs:760-883 | On success the tables are those the delta computes and the definitions are returned, a table missing locally being noticed only by a statement for it; with a willing server it fails only where the delta does |
| SchemaDelta.DeltaReachesPublication | crates/pglite/src/replica/backfill.rs:760-883 | From tables that match the old lines the delta succeeds if and only if no retained column changed its type, and then the local tables and columns are exactly the introspected ones, dropped tables are gone and others untouched |
| SchemaDelta.RetainConverges | crates/pglite/src/replica/backfill.rs:839-878 | A retained table ends with exactly the new columns |
| SchemaDelta.UnchangedPublicationKeepsTables | crates/pglite/src/replica/backfill.rs:760-883 | For a publication that did not change the delta leaves every table as it is, rows included |
| TypeOrder.TopoOrder | crates/pglite/src/replica/backfill.rs:583-633 | Terminates; success is a permutation in which everything an item needs comes before it, and it fails if and only if the needs have a cycle, self-needs included |
| TypeOrder.NeedsAreNamed | crates/pglite/src/replica/backfill.rs:583-617 | An item needs an item if and only if it names its oid among its dependencies and no later item has that oid |
| TypeOrder.Visit | crates/pglite/src/replica/backfill.rs:590-629 | The search from one node keeps the stack as the path being searched and the order closed, or finds a cycle |
| TypeOrder.Scan | crates/pglite/src/replica/backfill.rs:598-617 | The inner loop finds the first dependency that is not done and whether it is under way |
| TypeOrder.OrderedHasNoCycle | crates/pglite/src/replica/backfill.rs:583-633 | An order with everything needed first excludes cycles |
| TypeOrder.GreyGivesCycle | crates/pglite/src/replica/backfill.rs:606-612 | A dependency on a node under way closes a cycle along the stack |
| TypeOrder.PopKeeps | crates/pglite/src/replica/backfill.rs:620-625 | Finishing the top node keeps every frame below waiting for the next |
| Security.ReconcileSecurity | crates/pglite/src/replica/backfill.rs:1104-1236 | Succeeds if and only if no catalog role bears a name the local server came with, the catalog speaks of roles and tables that exist, and it names no policy of a table twice; then roles, memberships, row security, grants and policies are the catalog's and everything else is untouched. A role with such a name is refused as a duplicate before anything else is done |
| Security.ReconciledRolesAndTables | crates/pglite/src/replica/backfill.rs:1104-1236 | After a success every catalog role is without login and bypass; row security is forced exactly when enabled, whatever the catalog's own forced flag; entry by entry, SELECT is for PUBLIC if and only if the catalog says "PUBLIC", for a user role if and only if it names it, for a predefined role if it was or is named; a table has a policy of a name if and only if the catalog has one, with its kind, command, USING and WITH CHECK, for exactly the roles named, or PUBLIC when "public" is |
| Security.IndependentOfBefore | crates/pglite/src/replica/backfill.rs:1104-1236 | The catalog's part of the result does not depend on what was there before |
| Security.Idempotent | crates/pglite/src/replica/backfill.rs:1104-1236 | After a success the catalog can be reconciled again, and every second success leaves exactly the state of the first |
| Security.ReconcileGrants | crates/pglite/src/replica/backfill.rs:1186-1210 | Grants to PUBLIC and user roles become the catalog's, entry by entry, those to predefined roles stay; fails exactly on a grant to an unknown role |
| Security.ReconcilePolicies | crates/pglite/src/replica/backfill.rs:1212-1232 | The table's policies become the catalog's, each field by field and for the roles it names; fails exactly on a repeated name, an empty role list or an unknown role |
| Security.ReconcileRoles | crates/pglite/src/replica/backfill.rs:1104-1136 | Roles not there yet are created and all are given their attributes; it fails exactly on a name that the server came with |
| Security.ReconcileMembers | crates/pglite/src/replica/backfill.rs:1138-1163 | Memberships of user roles become the catalog's and those among predefined roles stay; fails exactly on an unknown role |
| Security.ReconciledMembers | crates/pglite/src/replica/backfill.rs:1138-1163 | After success a link is there if and only if the catalog names it, or it was there and involves a predefined role; likewise for its admin option |
| Security.OthersUntouched | crates/pglite/src/replica/backfill.rs:1104-1236 | Roles and tables that the catalog does not name stay as they were |
| CopyTables.CopyTable | crates/pglite/src/replica/backfill.rs:741-756 | One COPY statement for each batch of the grouped chunks, in order, up to the first refused one; the table has the rows of those that took effect |
| CopyTables.BatchesCarryTheData | crates/pglite/src/replica/backfill.rs:741-756 | The batches joined are the chunks joined, none is empty, and all but the last have at least 1048576 bytes |
| CopyTables.BatchesAreRuns | crates/pglite/src/replica/backfill.rs:741-756 | A batch ends with the chunk by which it reaches 1048576 bytes and not before; what is left at the end is the last batch, if it has any bytes |
| SessionProof.WholeOrNothing | crates/pglite/src/transaction.rs:17-94 | With broken connections, cancelled futures and drops at any point, the statements of a lease take effect all together in order, at most once, or not at all |
| SessionProof.NewLeaseStartsOutside | crates/pglite/src/multiple_process/pool.rs:296-310 | In every run the first command of each new lease, a BEGIN or a command sent without a transaction, finds the session outside any transaction |
| SessionProof.ToldIsTrue | crates/pglite/src/transaction.rs:70-78 | After an acknowledged COMMIT the script is in effect; after a server error it never will be |
| SessionProof.StatementFindsItsTransaction | crates/pglite/src/multiple_process/pool.rs:51-69 | A statement taken from the queue runs in its own transaction, after exactly the statements before it |
| SessionProof.EveryRunKeeps | crates/pglite/src/multiple_process/pool.rs:51-69 | The invariant of the queue, the session and the client over every run |
| Session.ApplyScript | crates/pglite/src/replica/mod.rs:986-999 | Statements are sent one by one until one fails; everything sent is BEGIN, a prefix of the script, and COMMIT after all of it or ROLLBACK from the drop |
| ApplySession.RepliesDecide | crates/pglite/src/transaction.rs:17-94 | In every run of a connection the replies heard by the client of a lease decide whether its script is in effect, and what the server told for sure is that it runs or is rejected |
| ApplySession.HistoryIsApplied | crates/pglite/src/replica/mod.rs:986-999 | In every run of a connection the store is the one that the transactions of the leases in the history give, each applied whole and in order |
| ApplySession.ApplyIsAtomic | crates/pglite/src/replica/mod.rs:986-999 | In every run the store that `apply` leaves is the one before its lease with the whole transaction applied, or that store unchanged, as the replies it heard say |
| PoolRuns.LiveCounts | crates/pglite/src/multiple_process/pool.rs:235-320 | In every interleaving the connections idle, leased, being opened and in handoff are at most `live`, which is at most the maximum and never below zero; the difference is exactly the number of futures dropped with a connection |
| PoolRuns.NoSharedSession | crates/pglite/src/multiple_process/pool.rs:296-310 | In every interleaving no connection is idle, leased or handed over twice or two of these at once, and `idle` or `waiters` is empty |
| PoolRuns.ReaperLeavesFresh | crates/pglite/src/multiple_process/pool.rs:210-228 | In every interleaving a pass of the reaper keeps the minimum, and leaves only the minimum or connections that have not reached the time to live |
| PoolRuns.WaitsOnlyWhenFull | crates/pglite/src/multiple_process/pool.rs:242-262 | In every interleaving a future that asks waits if and only if no idle connection is alive and those leased, handed over, being opened or lost make up the maximum; otherwise it gets one or opens one |
| PoolRuns.MoveKeeps | crates/pglite/src/multiple_process/pool.rs:235-320 | Every move keeps the counts, the exclusion and the order, and leaks a connection exactly when a future is dropped with one |
| PoolRuns.TakeCounts | crates/pglite/src/multiple_process/pool.rs:243-253 | Acquiring takes the last live idle connection, forgets the dead ones after it and lowers `live` by them |
| PoolRuns.AcquireDecides | crates/pglite/src/multiple_process/pool.rs:242-262 | The last idle connection alive is taken; with none alive one is opened if that stays within the maximum, and else the future waits |
| PoolRuns.GrabDecides | crates/pglite/src/multiple_process/pool.rs:348-358 | `fire_and_forget` takes the last idle connection, opens one within the maximum, or gives up if and only if it can do neither |
| PoolRuns.ReleaseCounts | crates/pglite/src/multiple_process/pool.rs:296-310 | A released connection goes to the last waiter still listening, or becomes the last idle one when none is |
| Pool.ReapRemovesFront | crates/pglite/src/multiple_process/pool.rs:210-228 | A pass removes an expired front segment only, lowers `live` by it, and stops at the minimum or at a front that has not expired |
| Pool.ReapLeavesFresh | crates/pglite/src/multiple_process/pool.rs:210-228 | With `idle` in order of last use nothing expired is left above the minimum |
| Pool.PoolState.AcquireLocked | crates/pglite/src/multiple_process/pool.rs:242-262 | The locked section of `acquire` |
| Pool.PoolState.ReleaseLocked | crates/pglite/src/multiple_process/pool.rs:302-309 | The locked section of `release` |
| Pool.PoolState.ReapLocked | crates/pglite/src/multiple_process/pool.rs:213-227 | The locked section of a reaper pass; what it removed and what it left make up the old `idle` |
| Pool.PoolState.GrabLocked | crates/pglite/src/multiple_process/pool.rs:348-358 | The locked section of `fire_and_forget` |
| Gateway.FilterResponse | crates/pglite/src/socket/mod.rs:190-205 | On every byte string the loop returns the kept frames byte for byte; on joined messages of the server it returns the encodings of those that are neither a notification nor a ready after a ready |
| Gateway.FilterOfMessages | crates/pglite/src/socket/mod.rs:190-205 | For messages encoded as tag, length of the body plus four, and body: the frames of their joined encodings are the encodings, and the filter leaves those of the messages other than an `A`, and a `Z` with nothing but `A` between it and a `Z` before |
| Gateway.KeepIsExact | crates/pglite/src/socket/mod.rs:190-205 | No notification and no second ready in a row is left, and every other frame is kept in order |
| Gateway.FilterIsIdempotent | crates/pglite/src/socket/mod.rs:190-205 | Filtering a filtered response changes nothing, with short lengths and a cut last frame included |
| Gateway.FramesCover | crates/pglite/src/socket/mod.rs:193-203 | The frames, whatever lengths they claim, are in order all of the response but fewer than five bytes at its end |
| Gateway.ServeClient | crates/pglite/src/socket/mod.rs:146-187 | Client frames are sent in order, cut into batches with exactly one asking frame each at the end, up to Terminate |
| Notify.KthCommandKthReply | crates/pglite/src/multiple_process/notify.rs:47-61 | In every interleaving the k-th written command is completed once, by the k-th ready, with the last error since the ready before |
| Notify.EveryCommandEnds | crates/pglite/src/multiple_process/notify.rs:107-111 | When the reader leaves, every sender queued before has one reply, its own or `Closed`; the senders queued later get none |
| Notify.NoOutcomeIff | crates/pglite/src/multiple_process/notify.rs:47-61 | A call waits without end if and only if it was queued after the reader had left and its write did not fail |
| Notify.WrittenInOrder | crates/pglite/src/multiple_process/notify.rs:47-56 | Commands are written in the order they were queued |
| Notify.FailedWriteShifts | crates/pglite/src/multiple_process/notify.rs:51-55 | If a failed write did not end the stream, the next command's reply would go to the failed one |
| Notify.NotifyConn.Interleaved | crates/pglite/src/multiple_process/notify.rs:63-111 | The shared queue and the staged error, changed by callers and reader in any interleaving, are as specified |

## Left out

- The embedded engine, its FFI and build scripts: foreign code that cannot be seen.
- Sockets, TLS, authentication, timeouts, sleeps, backoff, process start and stop: they appear only as
  events. `wire.rs` wraps a message parser that is not part of this model.
- Catalog introspection queries: introspected tables, types and catalogs are inputs.
- PostgreSQL's own execution beyond the statements sent: values are compared as text, so types whose
  `=` is coarser than equality of text, defaults, triggers, generated columns and constraints other than
  primary keys and unique indexes are not captured.
- Indexes that are not unique: they leave rows alone.
- A change of the upstream's keys or indexes on a table that stays published: the schema delta does not
  carry it over.
- Newly published tables and added columns carry no history; the replication theorem is for a fixed
  set of relations.
- User-defined types in the schema delta: they only add statements beside the columns.
- Completeness of the dependencies that `introspect_types` passes to `topo_order`: the order is proved
  for the graph it is given.
- `format_literals`: its meaning rests on the server.
- Live queries, listener callbacks, subscriber channels beyond the list of announced transactions,
  status cadence and option structs.
- Liveness and fairness of the pool, and injectivity of security fingerprints, which does not hold.
- The text of error messages: nothing branches on it.
- Memory: a Truncate message makes the decoder reserve room for as many relation ids as its count says,
  up to 16 GiB, before it reads one (crates/pglite/src/replica/pgoutput.rs:251).
- The retry of START_REPLICATION on a busy slot: its final answer is the one an attempt carries.
- Role attributes other than login, bypass and inherit, grantors of memberships, and statements that
  fail for reasons other than a missing or repeated name.
- SqlText.ParseInvertsPrint: a zero-length identifier reads back here, while a server refuses it.
- The in-process backend of a transaction, which takes a lock instead of a pooled connection, and a BEGIN
  cancelled there.
- PoolRuns.ReaperLeavesFresh: dead connections behind a live front are left to later passes.
