/** The replication consumer of `crates/pglite/src/replica/mod.rs`. `Step` says what one
    event does to the replica's memory and to the local store. Everything outside the process
    answers through the event: whether a statement ran, whether its reply arrived, what the
    upstream sent. */
module Replication {
  import opened Wrappers
  import opened PgOutput
  import opened SqlText
  import opened RowChanges
  import opened Database
  import opened Fingerprint
  import opened Fates
  import opened SchemaDelta
  import Lsn

  const DDL_SIGNAL_PREFIX := "pglite_ddl"

  datatype ReplMsg = Keepalive(walEnd: U64, replyRequested: bool) | CopyDone | XLogData(data: Bytes)

  /** The row of `_pglite_replica`. */
  datatype Meta = Meta(watermark: string, fingerprint: string)

  datatype Store = Store(tables: Db, meta: Option<Meta>)

  datatype TxnBuf = TxnBuf(xid: U32, commitTs: I64, stmts: seq<string>, changes: seq<RowChange>)

  datatype CommittedTransaction =
    CommittedTransaction(xid: U32, commitLsn: U64, endLsn: U64, commitTs: I64, changes: seq<RowChange>)

  /** The variables local to one run of the stream loop. */
  datatype Locals = Locals(expected: ExpectedMap, rels: map<U32, Rel>, txn: Option<TxnBuf>)

  datatype State = State(
    watermark: U64, ackPos: U64, vars: Locals, store: Store,
    sent: seq<U64>, published: seq<CommittedTransaction>)

  // ---- Answers from outside ----

  datatype AlterAnswer = Altered | AlterFailed(done: nat, error: Error)

  datatype ResyncAnswer = Resynced(defs: seq<TableDef>, names: set<Target>) | ResyncFailed(tables: Db, error: Error)

  /** `apply` are the replies to the commands of one transaction. */
  datatype Answers = Answers(
    status: Outcome, apply: seq<Reply>, alter: AlterAnswer, save: Fate, resync: ResyncAnswer, security: Outcome)

  datatype Event =
    | Stop
    | StatusDue(status: Outcome)
    | RolePoll(security: Outcome)
    | ReadTimeout
    | ReadFailed(error: Error)
    | Received(msg: ReplMsg, answers: Answers)

  datatype LoopResult = Running | Stopped | Errored(error: Error)

  function ResultOf(o: Outcome): LoopResult {
    match o
    case Pass => Running
    case Fail(e) => Errored(e)
  }

  // ---- Errors ----

  function IsFatal(e: Error): bool {
    match e
    case Io => false
    case Upstream => false
    case Database(sqlstate) => sqlstate !in ["55006", "57P01", "57P02", "57P03"]
    case _ => true
  }

  function MapInvalidated(e: Error): Error { if e == Database("55000") then ReplicaHalted else e }

  // ---- One event ----

  function Max(a: U64, b: U64): U64 { if a >= b then a else b }

  function Feedback(s: State): U64 { Max(s.watermark, s.ackPos) }

  function SendStatus(s: State, answer: Outcome): (State, LoopResult) {
    (s.(sent := s.sent + [Feedback(s)]), ResultOf(answer))
  }

  function WithTxn(s: State, txn: Option<TxnBuf>): State { s.(vars := s.vars.(txn := txn)) }

  function Push(buf: TxnBuf, stmt: string, changes: seq<RowChange>): TxnBuf {
    buf.(stmts := buf.stmts + [stmt], changes := buf.changes + changes)
  }

  function OnRow(s: State, relId: U32, m: Msg): (State, LoopResult) {
    if relId !in s.vars.rels || s.vars.txn.None? then (s, Errored(Protocol))
    else
      match Sql(PlanOf(s.vars.rels[relId], m))
      case Failure(e) => (s, Errored(e))
      case Success((stmt, change)) => (WithTxn(s, Some(Push(s.vars.txn.value, stmt, [change]))), Running)
  }

  function TruncateOf(t: Target): RowChange { RowTruncate(t) }

  function OnTruncate(s: State, ids: seq<U32>): (State, LoopResult) {
    if s.vars.txn.None? || exists id :: id in ids && id !in s.vars.rels then (s, Errored(Protocol))
    else
      var targets := seq(|ids|, i requires 0 <= i < |ids| => TargetOf(s.vars.rels[ids[i]]));
      var stmt := Print(TruncateTables(targets));
      (WithTxn(s, Some(Push(s.vars.txn.value, stmt, Map(TruncateOf, targets)))), Running)
  }

  function WithWatermark(store: Store, end: U64): Store {
    store.(meta := if store.meta.Some? then Some(store.meta.value.(watermark := Lsn.ToPgStr(end))) else None)
  }

  /** One transaction: the statements, then the watermark in the state row. */
  ghost function Applied(store: Store, stmts: seq<string>, end: U64): Store {
    match RunScript(store.tables, stmts)
    case None => store
    case Some(tables) => WithWatermark(store.(tables := tables), end)
  }

  /** BEGIN, the statements and the watermark come before COMMIT. */
  function ApplyFate(s: State, a: Answers): Fate {
    FateOf((if s.vars.txn.Some? then |s.vars.txn.value.stmts| else 0) + 2, a.apply)
  }

  ghost function AfterFate(store: Store, changed: Store, fate: Fate): Store {
    if fate.Rejected? then store else changed
  }

  function CommitOf(buf: TxnBuf, c: U64, end: U64, ts: I64): CommittedTransaction {
    CommittedTransaction(buf.xid, c, end, if buf.commitTs != 0 then buf.commitTs else ts, buf.changes)
  }

  ghost function OnCommit(s: State, c: U64, end: U64, ts: I64, apply: Fate): (State, LoopResult) {
    if s.vars.txn.None? then (s, Errored(Protocol))
    else
      var buf, s1 := s.vars.txn.value, WithTxn(s, None);
      if end <= s.watermark then (s1, Running)
      else if buf.stmts == [] then (s1.(ackPos := Max(s1.ackPos, end)), Running)
      else
        var s2 := s1.(store := AfterFate(s.store, Applied(s.store, buf.stmts, end), apply));
        match apply
        case Runs =>
          (s2.(watermark := end, ackPos := Max(s.ackPos, end),
               published := s.published + if buf.changes == [] then [] else [CommitOf(buf, c, end, ts)]), Running)
        case Rejected(e) => (s2, Errored(e))
        case ReplyLost(e) => (s2, Errored(e))
  }

  function ColumnOf(c: RelColumn): Column { Column(c.name, c.typeOid) }

  ghost function AddColumns(tables: Db, t: Target, cols: seq<Column>): Db {
    if t !in tables then tables
    else tables[t := AddMissing(tables[t], cols, {})]
  }

  function AlterError(alter: AlterAnswer): Outcome {
    match alter
    case Altered => Pass
    case AlterFailed(_, e) => Fail(e)
  }

  ghost function Saved(store: Store, text: string): Store {
    if store.meta.None? then store else store.(meta := Some(store.meta.value.(fingerprint := text)))
  }

  /** How many of the added columns the ALTER statements reached. */
  function AlteredCount(alter: AlterAnswer, added: nat): (n: nat)
    ensures n <= added
  {
    match alter
    case Altered => added
    case AlterFailed(done, _) => if done < added then done else added
  }

  ghost function OnAdditive(s: State, key: Target, line: string, added: seq<Column>, a: Answers): (State, LoopResult) {
    var n := AlteredCount(a.alter, |added|);
    var s1 := s.(store := s.store.(tables := AddColumns(s.store.tables, key, added[..n])));
    if added != [] && a.alter.AlterFailed? then (s1, Errored(a.alter.error))
    else
      var expected := s.vars.expected[key := line];
      var s2 := s1.(vars := s.vars.(expected := expected),
                    store := AfterFate(s1.store, Saved(s1.store, TextOf(expected)), a.save));
      (s2, ResultOf(FateResult(a.save)))
  }

  ghost function OnRelation(s: State, m: Msg, a: Answers): (State, LoopResult)
    requires m.Relation?
  {
    var key, cols := Target(m.namespace, m.name), Map(ColumnOf, m.columns);
    var line := Line(key, cols);
    if key !in s.vars.expected then (s, Errored(ReplicaHalted))
    else
      var want := s.vars.expected[key];
      var (s1, r) :=
        if want == line then (s, Running)
        else
          match Classify(want, cols)
          case Incompatible => (s, Errored(ReplicaHalted))
          case Additive(n) => OnAdditive(s, key, line, cols[n..], a);
      if !r.Running? then (s1, r)
      else (s1.(vars := s1.vars.(rels := s1.vars.rels[m.relId := Rel(m.namespace, m.name, m.columns)])), Running)
  }

  function DefLine(d: TableDef): string { Line(d.key, d.columns) }

  /** The fingerprint of the introspected tables. */
  function DefText(defs: seq<TableDef>): string { Join(Map(DefLine, defs), "\n") }

  function StillPublished(rels: map<U32, Rel>, expected: ExpectedMap): map<U32, Rel> {
    map id | id in rels && TargetOf(rels[id]) in expected :: rels[id]
  }

  ghost function OnNewSchema(s: State, text: string, a: Answers): (State, LoopResult) {
    var s1 := s.(store := AfterFate(s.store, Saved(s.store, text), a.save));
    if !a.save.Runs? then (s1, ResultOf(FateResult(a.save)))
    else
      var expected := Expected(LinesOf(text));
      var rels := StillPublished(s.vars.rels, expected);
      (s1.(vars := s.vars.(expected := expected, rels := rels)), ResultOf(a.security))
  }

  /** The schema is brought up to the publication, then the roles and policies. */
  ghost function OnDdl(s: State, a: Answers): (State, LoopResult) {
    match a.resync
    case ResyncFailed(tables, e) => (s.(store := s.store.(tables := tables)), Errored(e))
    case Resynced(defs, _) =>
      match WholeDelta(s.store.tables, OldOf(SortedLines(s.vars.expected)), defs)
      case None => (s, Errored(ReplicaHalted))
      case Some(tables) =>
        var s1 := s.(store := s.store.(tables := tables));
        if multiset(LinesOf(DefText(defs))) == multiset(SortedLines(s.vars.expected)) then (s1, ResultOf(a.security))
        else OnNewSchema(s1, DefText(defs), a)
  }

  ghost function OnMsg(s: State, m: Msg, a: Answers): (State, LoopResult) {
    match m
    case Begin(_, ts, xid) => (WithTxn(s, Some(TxnBuf(xid, ts, [], []))), Running)
    case Relation(_, _, _, _, _) => OnRelation(s, m, a)
    case Insert(id, _) => OnRow(s, id, m)
    case Update(id, _, _, _) => OnRow(s, id, m)
    case Delete(id, _, _) => OnRow(s, id, m)
    case Truncate(ids) => OnTruncate(s, ids)
    case Commit(c, end, ts) => OnCommit(s, c, end, ts, ApplyFate(s, a))
    case Message(prefix, _) => if prefix == DDL_SIGNAL_PREFIX then OnDdl(s, a) else (s, Running)
    case Other => (s, Running)
  }

  function OnKeepalive(s: State, walEnd: U64, replyRequested: bool, status: Outcome): (State, LoopResult) {
    var s1 := if s.vars.txn.None? then s.(ackPos := Max(s.ackPos, walEnd)) else s;
    if replyRequested then SendStatus(s1, status) else (s1, Running)
  }

  ghost function Step(s: State, e: Event): (State, LoopResult) {
    match e
    case Stop => (s, Stopped)
    case StatusDue(status) => SendStatus(s, status)
    case RolePoll(security) => (s, ResultOf(security))
    case ReadTimeout => (s, Running)
    case ReadFailed(error) => (s, Errored(MapInvalidated(error)))
    case Received(msg, a) =>
      match msg
      case Keepalive(walEnd, reply) => OnKeepalive(s, walEnd, reply, a.status)
      case CopyDone => (s, Errored(Upstream))
      case XLogData(data) =>
        match DecodeMsg(data)
        case Failure(error) => (s, Errored(error))
        case Success(m) => OnMsg(s, m, a)
  }

  /** The stream loop on a list of events: it stops at the first that ends it. */
  ghost function Steps(s: State, events: seq<Event>): (State, LoopResult)
    decreases events
  {
    if events == [] then (s, Running)
    else
      var (s1, r) := Step(s, events[0]);
      if r.Running? then Steps(s1, events[1..]) else (s1, r)
  }

  // ---- What the outside can answer ----

  /** A statement is reported done only when the server can run it after the ones before. */
  ghost predicate ScriptPossible(tables: Db, stmts: seq<string>, replies: seq<Reply>) {
    forall k | 0 <= k <= |stmts| && AllDone(replies, k + 1) :: RunScript(tables, stmts[..k]).Some?
  }

  ghost predicate CommitPossible(s: State, end: U64, replies: seq<Reply>) {
    s.vars.txn.Some? && end > s.watermark && s.vars.txn.value.stmts != [] ==>
      ScriptPossible(s.store.tables, s.vars.txn.value.stmts, replies)
  }

  ghost predicate DdlPossible(s: State, a: Answers) {
    a.resync.Resynced? ==>
      && a.resync.names == s.store.tables.Keys
      && WholeDelta(s.store.tables, OldOf(SortedLines(s.vars.expected)), a.resync.defs).Some?
  }

  /** A column is added only to a table that is there. */
  ghost predicate AlterPossible(s: State, key: Target, alter: AlterAnswer) {
    key !in s.store.tables ==> alter.AlterFailed? && alter.done == 0
  }

  ghost predicate Possible(s: State, e: Event) {
    e.Received? && e.msg.XLogData? && DecodeMsg(e.msg.data).Success? ==>
      var m := DecodeMsg(e.msg.data).value;
      && (m.Commit? ==> CommitPossible(s, m.endLsn, e.answers.apply))
      && (m.Relation? ==> AlterPossible(s, Target(m.namespace, m.name), e.answers.alter))
      && (m.Message? && m.prefix == DDL_SIGNAL_PREFIX ==> DdlPossible(s, e.answers))
  }

  ghost predicate AllPossible(s: State, events: seq<Event>)
    decreases events
  {
    events == [] ||
    (Possible(s, events[0]) && (Step(s, events[0]).1.Running? ==> AllPossible(Step(s, events[0]).0, events[1..])))
  }

  // ---- Connections ----

  /** One turn of `run`: a stop was asked for, the connection is refused, or a stream is
      asked for, with the answers to the settings query, to START_REPLICATION and to the first
      status message, and then its events. */
  datatype Attempt =
    | StopAsked
    | Refused(error: Error)
    | Streamed(asked: Outcome, started: Outcome, status: Outcome, events: seq<Event>)

  /** Where `run` is after a turn: it connects again, it is still reading the stream, it
      was stopped, or it halted. */
  datatype RunEnd = Retrying | Streaming | Finished | Halted(error: Error)

  function NoLocals(): Locals { Locals(map[], map[], None) }

  /** A process that finds the watermark `x` in the state row starts from it. */
  function Restarted(store: Store, x: U64): State { State(x, x, NoLocals(), store, [], []) }

  function Fresh(s: State, fingerprint: string): State {
    s.(vars := Locals(Expected(LinesOf(fingerprint)), map[], None))
  }

  ghost function Stream(s: State, at: Attempt): (State, LoopResult)
    requires at.Streamed?
  {
    if at.asked.Fail? then (s, Errored(at.asked.error))
    else if at.started.Fail? then (s, Errored(MapInvalidated(at.started.error)))
    else
      var (s1, r) := SendStatus(s, at.status);
      if r.Running? then Steps(s1, at.events) else (s1, r)
  }

  /** After an error on the connection: halt, or forget the positions past the watermark and
      connect again. */
  function Leave(s: State, e: Error): (State, RunEnd) {
    if IsFatal(e) then (s, Halted(e)) else (s.(ackPos := s.watermark), Retrying)
  }

  ghost function Turn(s: State, fingerprint: string, at: Attempt): (State, RunEnd) {
    match at
    case StopAsked => (s, Finished)
    case Refused(e) => (s, if IsFatal(e) then Halted(e) else Retrying)
    case Streamed(_, _, _, _) =>
      var (s1, r) := Stream(Fresh(s, fingerprint), at);
      match r
      case Running => (s1, Streaming)
      case Stopped => (s1, Finished)
      case Errored(e) => Leave(s1, e)
  }

  ghost function Turns(s: State, fingerprint: string, attempts: seq<Attempt>): (State, RunEnd)
    decreases attempts
  {
    if attempts == [] then (s, Retrying)
    else
      var (s1, end) := Turn(s, fingerprint, attempts[0]);
      if end.Retrying? then Turns(s1, fingerprint, attempts[1..]) else (s1, end)
  }

  ghost predicate StreamPossible(s: State, at: Attempt) {
    at.Streamed? && at.asked.Pass? && at.started.Pass? && at.status.Pass? ==>
      AllPossible(SendStatus(s, at.status).0, at.events)
  }

  ghost predicate AllStreamsPossible(s: State, fingerprint: string, attempts: seq<Attempt>)
    decreases attempts
  {
    attempts == [] ||
    (&& StreamPossible(Fresh(s, fingerprint), attempts[0])
     && var (s1, end) := Turn(s, fingerprint, attempts[0]);
        end.Retrying? ==> AllStreamsPossible(s1, fingerprint, attempts[1..]))
  }
}
