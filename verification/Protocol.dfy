/** Replica and upstream as one machine: commits, deliveries, keepalives, status messages,
    disconnects, lost replies, crashes, restarts, first runs and decommissions, in any order.
    The published relations are fixed. A move records what the outside did; the replica's own
    part is `Replication.Step`, and `FirstRun.Script` for the copy of a first run. */
module Protocol {
  import opened Wrappers
  import opened PgOutput
  import opened SqlText
  import opened RowChanges
  import opened Database
  import opened Fingerprint
  import opened LocalDb
  import opened SchemaDelta
  import opened FirstRun
  import opened Replication
  import opened Upstream
  import opened Delivery
  import Lsn

  /** What never changes: the published relations, the upstream tables before the log, their
      introspected definitions, and what a line of COPY data says. */
  datatype World = World(cat: Catalog, start: Db, defs: seq<TableDef>, read: Reader)

  /** The fingerprint text written by a first run. */
  function CopyText(w: World): string { DefText(w.defs) }

  /** The definitions are those of the tables, whose rows do not clash. */
  ghost predicate Defines(defs: seq<TableDef>, db: Db) {
    && Distinct(Map(KeyOf, defs)) && KeysOf(defs) == db.Keys
    && forall d | d in defs ::
         db[d.key].cols == d.columns && db[d.key].uniques == UniquesOf(d) && ClashFree(db[d.key])
  }

  ghost predicate GoodWorld(w: World) {
    Fits(w.cat, w.start) && Defines(w.defs, w.start) && Knows(CopyText(w), w.cat)
  }

  /** The transaction the upstream sends next, and how many of its changes went out after
      its Begin. */
  datatype Conn = Conn(next: nat, sent: Option<nat>)

  /** A copy runs `done` statements of its script on the tables it found, which were
      `before`. */
  datatype Proc =
    | Down(store: Store)
    | Copying(store: Store, before: Db, chunks: Chunks, done: nat)
    | Up(mem: State, boot: string, conn: Option<Conn>)

  /** `point` is the consistent point of the slot. Since the slot was created: `acks` are the
      positions reported by processes that are gone, `applied` the ends of the transactions
      that took effect, each as often as it did, and `spoiled` says whether one that took
      effect again changed the tables. */
  datatype Sys = Sys(
    log: seq<UpTxn>, wal: U64, slot: bool, point: U64,
    acks: seq<U64>, applied: seq<U64>, spoiled: bool, proc: Proc)

  function Disk(s: Sys): Store { if s.proc.Up? then s.proc.mem.store else s.proc.store }

  function AllAcks(s: Sys): seq<U64> { s.acks + if s.proc.Up? then s.proc.mem.sent else [] }

  // ---- Upstream positions ----

  ghost predicate Increasing(log: seq<UpTxn>) {
    forall i, j | 0 <= i < j < |log| :: log[i].end < log[j].end
  }

  ghost predicate Within(log: seq<UpTxn>, wal: U64) { forall i | 0 <= i < |log| :: log[i].end <= wal }

  /** How many transactions of the log end at or before the position. */
  function Upto(log: seq<UpTxn>, x: U64): (n: nat)
    ensures n <= |log|
  {
    if log == [] then 0
    else if log[|log| - 1].end <= x then |log|
    else Upto(log[..|log| - 1], x)
  }

  /** The upstream tables after exactly the transactions that end at or before `x`. */
  ghost function Through(w: World, log: seq<UpTxn>, x: U64): Db
    requires LegalLog(w.cat, w.start, log[..Upto(log, x)])
  {
    StateAfter(w.cat, w.start, log[..Upto(log, x)])
  }

  predicate Effective(t: UpTxn, from: U64, to: U64) { from < t.end <= to && t.changes != [] }

  /** In commit order, the ends of the transactions with changes in the interval. */
  function EffectiveEnds(log: seq<UpTxn>, from: U64, to: U64): seq<U64> {
    if log == [] then []
    else
      var t := log[|log| - 1];
      EffectiveEnds(log[..|log| - 1], from, to) + if Effective(t, from, to) then [t.end] else []
  }

  /** Every transaction that ends at or before `a` is applied up to `x`, or has no changes. */
  ghost predicate Covered(log: seq<UpTxn>, a: U64, x: U64) {
    forall i | 0 <= i < |log| && log[i].end <= a :: log[i].end <= x || log[i].changes == []
  }

  ghost predicate Passed(log: seq<UpTxn>, n: nat, x: U64) {
    n <= |log| && forall i | 0 <= i < n :: log[i].end <= x || log[i].changes == []
  }

  // ---- What the upstream may send ----

  /** A keepalive position never overtakes a transaction not sent yet; it may overtake the end
      of the one that is being sent. */
  ghost predicate OffersKeepalive(s: Sys, c: Conn, walEnd: U64) {
    && walEnd <= s.wal
    && forall i | 0 <= i < |s.log| && s.log[i].end <= walEnd :: i < c.next || (i == c.next && c.sent.Some?)
  }

  /** A schema signal for a publication that did not change. */
  ghost predicate NothingNew(mem: State, a: Answers) {
    match a.resync
    case ResyncFailed(tables, _) => tables == mem.store.tables
    case Resynced(defs, _) =>
      && WholeDelta(mem.store.tables, OldOf(SortedLines(mem.vars.expected)), defs) == Some(mem.store.tables)
      && multiset(LinesOf(DefText(defs))) == multiset(SortedLines(mem.vars.expected))
  }

  ghost predicate OffersChange(w: World, s: Sys, c: Conn, m: Msg) {
    && c.next < |s.log| && c.sent.Some? && c.sent.value < |s.log[c.next].changes|
    && LegalLog(w.cat, w.start, s.log[..c.next])
    && var db, changes, j := StateAfter(w.cat, w.start, s.log[..c.next]), s.log[c.next].changes, c.sent.value;
       && Legal(w.cat, db, changes[..j]) && Applicable(w.cat, Effects(w.cat, db, changes[..j]), changes[j])
       && Tells(w.cat, changes[j], m) && Exact(w.cat, Effects(w.cat, db, changes[..j]), changes[j], m)
  }

  ghost predicate OffersMsg(w: World, s: Sys, mem: State, c: Conn, m: Msg, a: Answers) {
    match m
    case Begin(_, _, _) => c.next < |s.log| && c.sent.None?
    case Commit(_, end, _) =>
      c.next < |s.log| && c.sent == Some(|s.log[c.next].changes|) && end == s.log[c.next].end
    case Relation(id, namespace, name, _, columns) => id in w.cat && w.cat[id] == Rel(namespace, name, columns)
    case Message(prefix, _) => prefix == DDL_SIGNAL_PREFIX ==> NothingNew(mem, a)
    case Other => true
    case _ => OffersChange(w, s, c, m)
  }

  /** Bytes that do not decode may come at any time. */
  ghost predicate Offers(w: World, s: Sys, mem: State, c: Conn, e: Event) {
    match e
    case Received(Keepalive(walEnd, _), _) => OffersKeepalive(s, c, walEnd)
    case Received(XLogData(data), a) =>
      DecodeMsg(data).Success? ==> OffersMsg(w, s, mem, c, DecodeMsg(data).value, a)
    case _ => true
  }

  function AfterMsg(c: Conn, m: Msg): Conn {
    match m
    case Begin(_, _, _) => c.(sent := Some(0))
    case Commit(_, _, _) => Conn(c.next + 1, None)
    case Insert(_, _) => Advanced(c)
    case Update(_, _, _, _) => Advanced(c)
    case Delete(_, _, _) => Advanced(c)
    case Truncate(_) => Advanced(c)
    case _ => c
  }

  function Advanced(c: Conn): Conn { if c.sent.Some? then c.(sent := Some(c.sent.value + 1)) else c }

  function MsgIn(e: Event): Option<Msg> {
    if e.Received? && e.msg.XLogData? && DecodeMsg(e.msg.data).Success? then Some(DecodeMsg(e.msg.data).value) else None
  }

  function AfterEvent(c: Conn, e: Event): Conn { if MsgIn(e).Some? then AfterMsg(c, MsgIn(e).value) else c }

  // ---- What took effect ----

  /** The message is the COMMIT of a transaction that the replica applies. */
  predicate Applies(mem: State, m: Msg) {
    m.Commit? && mem.vars.txn.Some? && m.endLsn > mem.watermark && mem.vars.txn.value.stmts != []
  }

  function AppliedEnd(mem: State, m: Msg, a: Answers): seq<U64> {
    if Applies(mem, m) && !ApplyFate(mem, a).Rejected? then [m.endLsn] else []
  }

  ghost function NotedMsg(s: Sys, mem: State, m: Msg, a: Answers): Sys {
    var ends := AppliedEnd(mem, m, a);
    s.(applied := s.applied + ends,
       spoiled := s.spoiled ||
                  (ends != [] && ends[0] in s.applied && OnMsg(mem, m, a).0.store.tables != mem.store.tables))
  }

  ghost function Noted(s: Sys, mem: State, e: Event): Sys {
    if MsgIn(e).Some? then NotedMsg(s, mem, MsgIn(e).value, e.answers) else s
  }

  /** The upstream resumes anywhere it likes but skips nothing above the position asked for,
      the consistent point and the positions reported to it. */
  ghost predicate MayResumeAt(s: Sys, asked: U64, n: nat) {
    n <= |s.log| &&
    forall i | 0 <= i < n ::
      s.log[i].end <= s.point || s.log[i].end <= asked || exists a :: a in AllAcks(s) && s.log[i].end <= a
  }

  // ---- Moves ----

  datatype Move =
    | UpstreamCommits(txn: UpTxn, wal: U64)
    | StartCopy(point: U64, chunks: Chunks)
    | CopyStatement
    | FinishCopy
    | Boot
    | Connect(n: nat, status: Outcome)
    | Reads(e: Event)
    | Crash
    | DropSlot
    | Forget

  /** After a result on the connection: read on, connect again, or stop until a restart. */
  ghost function Resume(s: Sys, r: (State, LoopResult), c: Conn): Sys
    requires s.proc.Up?
  {
    var t := s.(proc := s.proc.(mem := r.0, conn := None));
    match r.1
    case Running => t.(proc := t.proc.(conn := Some(c)))
    case Stopped => Killed(t)
    case Errored(e) =>
      match Leave(r.0, e)
      case (mem, Retrying) => t.(proc := t.proc.(mem := mem))
      case (mem, _) => Killed(t)
  }

  ghost function Killed(s: Sys): Sys { s.(acks := AllAcks(s), proc := Down(Disk(s))) }

  ghost predicate Commits(w: World, s: Sys, txn: UpTxn, wal: U64, t: Sys) {
    && s.wal < txn.end <= wal && LegalLog(w.cat, w.start, s.log + [txn])
    && t == s.(log := s.log + [txn], wal := wal)
  }

  /** The COPY data of each table, in whole lines, are the rows of the upstream tables. */
  ghost predicate Carries(w: World, chunks: Chunks, db: Db) {
    && ChunksWhole(chunks)
    && forall d | d in w.defs :: d.key in db && RowsFor(w.read, chunks, d.key) == db[d.key].rows
  }

  /** A first run creates the slot, dropping an older one, and takes its snapshot. */
  ghost predicate StartsCopy(w: World, s: Sys, point: U64, chunks: Chunks, t: Sys) {
    && s.proc.Down? && s.proc.store.meta.None? && point <= s.wal && Within(s.log, point)
    && LegalLog(w.cat, w.start, s.log) && Carries(w, chunks, StateAfter(w.cat, w.start, s.log))
    && t == s.(slot := true, point := point, acks := [], applied := [], spoiled := false,
               proc := Copying(s.proc.store, s.proc.store.tables, chunks, 0))
  }

  /** One statement of the copy takes effect. */
  ghost predicate CopiesOn(w: World, s: Sys, t: Sys) {
    && s.proc.Copying? && s.proc.done < |Script(w.defs, s.proc.chunks)|
    && var now := RunStmt(w.read, s.proc.store.tables, Script(w.defs, s.proc.chunks)[s.proc.done]);
       && now.Some?
       && t == s.(proc := s.proc.(store := s.proc.store.(tables := now.value), done := s.proc.done + 1))
  }

  /** After the last statement the state row is written. */
  ghost predicate FinishesCopy(w: World, s: Sys, t: Sys) {
    && s.proc.Copying? && s.proc.done == |Script(w.defs, s.proc.chunks)|
    && t == s.(proc := Down(s.proc.store.(meta := Some(Meta(Lsn.ToPgStr(s.point), CopyText(w))))))
  }

  /** A process that finds a state row starts from it. */
  ghost predicate Boots(s: Sys, t: Sys) {
    && s.proc.Down? && s.proc.store.meta.Some?
    && var meta := s.proc.store.meta.value;
       match Lsn.FromPgStr(meta.watermark)
       case Failure(_) => false
       case Success(x) =>
         t == s.(proc := Up(Restarted(s.proc.store, x), meta.fingerprint, None))
  }

  ghost predicate Connects(s: Sys, n: nat, status: Outcome, t: Sys) {
    && s.slot && s.proc.Up? && s.proc.conn.None? && MayResumeAt(s, s.proc.mem.watermark, n)
    && t == Resume(s, SendStatus(Fresh(s.proc.mem, s.proc.boot), status), Conn(n, None))
  }

  /** The event is one that the upstream and the local server can produce now. */
  ghost predicate Occurs(w: World, s: Sys, e: Event) {
    && s.proc.Up? && s.proc.conn.Some?
    && Offers(w, s, s.proc.mem, s.proc.conn.value, e) && Possible(s.proc.mem, e)
  }

  /** The replica handles an event. A reply it does not get leaves its memory behind its
      store. */
  ghost predicate ReadsEvent(w: World, s: Sys, e: Event, t: Sys) {
    Occurs(w, s, e)
    && t == Resume(Noted(s, s.proc.mem, e), Step(s.proc.mem, e), AfterEvent(s.proc.conn.value, e))
  }

  ghost predicate Crashes(s: Sys, t: Sys) {
    t == if s.proc.Up? then Killed(s) else s.(proc := Down(s.proc.store))
  }

  ghost predicate Moves(w: World, s: Sys, m: Move, t: Sys) {
    match m
    case UpstreamCommits(txn, wal) => Commits(w, s, txn, wal, t)
    case StartCopy(point, chunks) => StartsCopy(w, s, point, chunks, t)
    case CopyStatement => CopiesOn(w, s, t)
    case FinishCopy => FinishesCopy(w, s, t)
    case Boot => Boots(s, t)
    case Connect(n, status) => Connects(s, n, status, t)
    case Reads(e) => ReadsEvent(w, s, e, t)
    case Crash => Crashes(s, t)
    case DropSlot => s.proc.Down? && t == s.(slot := false)
    case Forget => s.proc.Down? && !s.slot && t == s.(proc := Down(s.proc.store.(meta := None)))
  }

  // ---- Runs ----

  ghost predicate Begins(w: World, s: Sys) {
    && Increasing(s.log) && Within(s.log, s.wal) && LegalLog(w.cat, w.start, s.log)
    && s.proc.Down? && s.proc.store.meta.None?
  }

  ghost predicate Execution(w: World, run: seq<Sys>, moves: seq<Move>) {
    && GoodWorld(w) && |run| == |moves| + 1 && Begins(w, run[0])
    && forall i | 0 <= i < |moves| :: Moves(w, run[i], moves[i], run[i + 1])
  }
}
