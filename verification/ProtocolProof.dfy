/** Every run of the machine, lost replies included, applies the transactions in commit order
    and never reports a position whose changes could be lost. Until a transaction that took
    effect twice changes the tables, they are the upstream state of the persisted
    watermark. */
module ProtocolProof {
  import opened Wrappers
  import opened PgOutput
  import opened SqlText
  import opened RowChanges
  import opened Database
  import opened Fingerprint
  import opened LocalDb
  import opened SchemaDelta
  import opened FirstRun
  import opened Fates
  import opened Framing
  import opened Replication
  import opened Upstream
  import opened Protocol
  import Acknowledgement
  import Evolution
  import LostReply
  import Lsn

  // ---- The invariant ----

  ghost predicate LogOk(w: World, s: Sys) {
    && Increasing(s.log) && Within(s.log, s.wal) && LegalLog(w.cat, w.start, s.log)
  }

  /** The persisted watermark. */
  function Mark(store: Store): U64
    requires store.meta.Some?
  {
    match Lsn.FromPgStr(store.meta.value.watermark)
    case Success(x) => x
    case Failure(_) => 0
  }

  /** The state row, once written, says the text of a position of the log and the text of the
      copy. */
  ghost predicate RowOk(w: World, s: Sys, store: Store) {
    store.meta.Some? ==>
      && store.meta.value == Meta(Lsn.ToPgStr(Mark(store)), CopyText(w)) && s.point <= Mark(store) <= s.wal
  }

  /** The published tables are the upstream's at the store's own watermark. */
  ghost predicate TablesOk(w: World, s: Sys, store: Store) {
    store.meta.Some? && !s.spoiled ==>
      && LegalLog(w.cat, w.start, s.log[..Upto(s.log, Mark(store))])
      && Embeds(store.tables, Through(w, s.log, Mark(store)))
  }

  predicate NonDescending(ends: seq<U64>) { forall i, j | 0 <= i < j < |ends| :: ends[i] <= ends[j] }

  /** The transactions that took effect are those with changes up to `x`, in commit order. */
  ghost predicate AppliedOk(s: Sys, x: U64) {
    && NonDescending(s.applied) && (Distinct(s.applied) ==> !s.spoiled)
    && forall e :: e in s.applied <==> e in EffectiveEnds(s.log, s.point, x)
  }

  ghost predicate StoreOk(w: World, s: Sys, store: Store) {
    RowOk(w, s, store) && TablesOk(w, s, store) && (store.meta.Some? ==> AppliedOk(s, Mark(store)))
  }

  /** A position that may be reported, now or after any number of further commits. */
  ghost predicate Safe(s: Sys, a: U64, x: U64) { a <= s.wal && Covered(s.log, a, x) }

  /** What the process at work counts as applied; memory may lag behind the store. */
  function Counted(s: Sys): U64
    requires Disk(s).meta.Some?
  {
    if s.proc.Up? then s.proc.mem.watermark else Mark(Disk(s))
  }

  ghost predicate AcksOk(s: Sys) {
    Disk(s).meta.Some? ==> forall a | a in AllAcks(s) :: Safe(s, a, Counted(s))
  }

  /** The statements buffered for the transaction in flight repeat the changes sent. */
  ghost predicate Buffered(w: World, log: seq<UpTxn>, c: Conn, buf: TxnBuf) {
    && c.next < |log| && c.sent.Some? && c.sent.value <= |log[c.next].changes|
    && LegalLog(w.cat, w.start, log[..c.next])
    && var db, done := StateAfter(w.cat, w.start, log[..c.next]), log[c.next].changes[..c.sent.value];
       && Legal(w.cat, db, done) && RunScript(db, buf.stmts) == Some(Effects(w.cat, db, done))
       && (buf.stmts == [] <==> done == [])
  }

  ghost predicate LocalsOk(w: World, vars: Locals) {
    && vars.expected == Expected(LinesOf(CopyText(w)))
    && forall id | id in vars.rels :: id in w.cat && vars.rels[id] == w.cat[id]
  }

  ghost predicate ConnOk(w: World, s: Sys, mem: State, c: Conn) {
    && Passed(s.log, c.next, mem.watermark) && LocalsOk(w, mem.vars)
    && (c.sent.Some? <==> mem.vars.txn.Some?)
    && (c.sent.Some? ==> Buffered(w, s.log, c, mem.vars.txn.value))
  }

  /** Memory lags behind the store by at most one transaction with changes, the last one. */
  ghost predicate Behind(log: seq<UpTxn>, x: U64, mark: U64) {
    x == mark ||
    (&& x < mark && (forall i | 0 <= i < |log| :: x < log[i].end < mark ==> log[i].changes == [])
     && exists i | 0 <= i < |log| :: log[i].end == mark && log[i].changes != [])
  }

  ghost predicate MemOk(w: World, s: Sys, mem: State) {
    && mem.store.meta.Some? && s.point <= mem.watermark && Behind(s.log, mem.watermark, Mark(mem.store))
    && Safe(s, mem.ackPos, mem.watermark)
  }

  ghost predicate CopyOk(w: World, s: Sys) {
    s.proc.Copying? ==>
      && s.proc.store.meta.None? && s.acks == [] && s.applied == [] && !s.spoiled && s.point <= s.wal
      && Reached(w.read, s.proc.before, Script(w.defs, s.proc.chunks), s.proc.done, s.proc.store.tables)
      && LegalLog(w.cat, w.start, s.log[..Upto(s.log, s.point)])
      && Carries(w, s.proc.chunks, Through(w, s.log, s.point))
  }

  ghost predicate ProcOk(w: World, s: Sys) {
    s.proc.Up? ==>
      && MemOk(w, s, s.proc.mem) && s.proc.boot == CopyText(w)
      && (s.proc.conn.Some? ==> ConnOk(w, s, s.proc.mem, s.proc.conn.value))
  }

  ghost predicate Inv(w: World, s: Sys) {
    LogOk(w, s) && StoreOk(w, s, Disk(s)) && AcksOk(s) && CopyOk(w, s) && ProcOk(w, s)
  }

  // ---- Positions in the log ----

  lemma {:induction false} UptoSplits(log: seq<UpTxn>, x: U64)
    requires Increasing(log)
    ensures forall i | 0 <= i < |log| :: i < Upto(log, x) <==> log[i].end <= x
  {
    if log == [] || log[|log| - 1].end <= x {
    } else {
      UptoSplits(log[..|log| - 1], x);
    }
  }

  lemma UptoIs(log: seq<UpTxn>, x: U64, n: nat)
    requires Increasing(log) && n <= |log|
    requires forall i | 0 <= i < |log| :: i < n <==> log[i].end <= x
    ensures Upto(log, x) == n
  {
  }

  lemma {:induction false} LegalPrefix(w: World, log: seq<UpTxn>, n: nat)
    requires LegalLog(w.cat, w.start, log) && n <= |log|
    ensures LegalLog(w.cat, w.start, log[..n])
  {
    if n == |log| {
      assert log[..n] == log;
    } else {
      LegalPrefix(w, log[..|log| - 1], n);
      assert log[..|log| - 1][..n] == log[..n];
    }
  }

  lemma StateStep(w: World, log: seq<UpTxn>, n: nat)
    requires LegalLog(w.cat, w.start, log) && n < |log|
    ensures LegalLog(w.cat, w.start, log[..n]) && LegalLog(w.cat, w.start, log[..n + 1])
    ensures Legal(w.cat, StateAfter(w.cat, w.start, log[..n]), log[n].changes)
    ensures StateAfter(w.cat, w.start, log[..n + 1]) ==
            Effects(w.cat, StateAfter(w.cat, w.start, log[..n]), log[n].changes)
  {
    hide Legal;
    hide Effects;
    LegalPrefix(w, log, n);
    LegalPrefix(w, log, n + 1);
    assert log[..n + 1][..n] == log[..n];
  }

  /** Transactions without changes leave the tables as they are. */
  lemma {:induction false} QuietStretch(w: World, log: seq<UpTxn>, k: nat, n: nat)
    requires LegalLog(w.cat, w.start, log) && k <= n <= |log|
    requires forall i | k <= i < n :: log[i].changes == []
    ensures LegalLog(w.cat, w.start, log[..k]) && LegalLog(w.cat, w.start, log[..n])
    ensures StateAfter(w.cat, w.start, log[..n]) == StateAfter(w.cat, w.start, log[..k])
    decreases n - k
  {
    LegalPrefix(w, log, k);
    if k == n {
    } else {
      QuietStretch(w, log, k, n - 1);
      StateStep(w, log, n - 1);
    }
  }

  /** When everything before the next transaction is applied or empty, the tables are the
      upstream state just before it. */
  lemma TablesAtNext(w: World, log: seq<UpTxn>, n: nat, x: U64)
    requires Increasing(log) && LegalLog(w.cat, w.start, log)
    requires n < |log| && Passed(log, n, x) && log[n].end > x
    ensures LegalLog(w.cat, w.start, log[..Upto(log, x)]) && LegalLog(w.cat, w.start, log[..n])
    ensures Through(w, log, x) == StateAfter(w.cat, w.start, log[..n])
  {
    UptoSplits(log, x);
    QuietStretch(w, log, Upto(log, x), n);
  }

  lemma UptoNext(log: seq<UpTxn>, n: nat)
    requires Increasing(log) && n < |log|
    ensures Upto(log, log[n].end) == n + 1
  {
  }

  // ---- The applied transactions ----

  lemma {:induction false} SameEffective(log: seq<UpTxn>, n: nat, p: U64, x: U64, y: U64)
    requires n <= |log|
    requires forall i | 0 <= i < n :: Effective(log[i], p, x) <==> Effective(log[i], p, y)
    requires forall i | n <= i < |log| :: !Effective(log[i], p, x)
    ensures EffectiveEnds(log, p, x) == EffectiveEnds(log[..n], p, y)
  {
    if |log| == 0 {
      assert log[..n] == [];
    } else if n == |log| {
      SameEffective(log[..|log| - 1], n - 1, p, x, y);
      assert log[..n] == log && log[..|log| - 1][..n - 1] == log[..|log| - 1];
    } else {
      SameEffective(log[..|log| - 1], n, p, x, y);
      assert log[..|log| - 1][..n] == log[..n];
    }
  }

  /** Applying the next transaction appends exactly its own end. */
  lemma OneMoreApplied(log: seq<UpTxn>, n: nat, p: U64, x: U64)
    requires Increasing(log) && n < |log| && Passed(log, n, x)
    requires p <= x < log[n].end && log[n].changes != []
    ensures EffectiveEnds(log, p, log[n].end) == EffectiveEnds(log, p, x) + [log[n].end]
  {
    var end := log[n].end;
    forall i | 0 <= i < n
      ensures Effective(log[i], p, end) <==> Effective(log[i], p, x)
    {
      assert log[i].end < end;
    }
    SameEffective(log, n, p, x, x);
    SameEffective(log, n + 1, p, end, end);
    SameEffective(log[..n], n, p, end, x);
    assert log[..n + 1][..n] == log[..n] && log[..n][..n] == log[..n];
  }

  lemma {:induction false} EffectiveIsApplied(log: seq<UpTxn>, p: U64, x: U64, i: nat)
    requires i < |log| && Effective(log[i], p, x)
    ensures log[i].end in EffectiveEnds(log, p, x)
  {
    if i == |log| - 1 {
    } else {
      EffectiveIsApplied(log[..|log| - 1], p, x, i);
    }
  }

  lemma {:induction false} AppliedIsEffective(log: seq<UpTxn>, p: U64, x: U64, e: U64) returns (i: nat)
    requires e in EffectiveEnds(log, p, x)
    ensures i < |log| && log[i].end == e && Effective(log[i], p, x)
  {
    if e in EffectiveEnds(log[..|log| - 1], p, x) {
      i := AppliedIsEffective(log[..|log| - 1], p, x, e);
    } else {
      i := |log| - 1;
    }
  }

  predicate Ascending(ends: seq<U64>) { forall i, j | 0 <= i < j < |ends| :: ends[i] < ends[j] }

  /** In commit order, none twice. */
  lemma {:induction false} AppliedInOrder(log: seq<UpTxn>, p: U64, x: U64)
    requires Increasing(log)
    ensures Ascending(EffectiveEnds(log, p, x))
  {
    if log == [] {
    } else {
      var n := |log| - 1;
      AppliedInOrder(log[..n], p, x);
      var before := EffectiveEnds(log[..n], p, x);
      forall i | 0 <= i < |before|
        ensures before[i] < log[n].end
      {
        var k := AppliedIsEffective(log[..n], p, x, before[i]);
      }
    }
  }

  // ---- The upstream commits ----

  lemma LongerLogSamePrefix(log: seq<UpTxn>, t: UpTxn, x: U64)
    requires Increasing(log) && x < t.end
    ensures Upto(log + [t], x) == Upto(log, x) && (log + [t])[..Upto(log, x)] == log[..Upto(log, x)]
    ensures forall p :: EffectiveEnds(log + [t], p, x) == EffectiveEnds(log, p, x)
  {
  }

  lemma CommitsExtend(log: seq<UpTxn>, wal: U64, t: UpTxn)
    requires Increasing(log) && Within(log, wal) && wal < t.end
    ensures Increasing(log + [t])
  {
  }

  lemma StillSafe(s: Sys, t: Sys, txn: UpTxn, a: U64, x: U64)
    requires Safe(s, a, x) && t.log == s.log + [txn] && s.wal < txn.end && s.wal <= t.wal
    ensures Safe(t, a, x)
  {
  }

  lemma StillConnected(w: World, s: Sys, t: Sys, txn: UpTxn, mem: State, c: Conn)
    requires ConnOk(w, s, mem, c) && t.log == s.log + [txn]
    ensures ConnOk(w, t, mem, c)
  {
    if c.sent.Some? {
      assert t.log[c.next] == s.log[c.next] && t.log[..c.next] == s.log[..c.next];
    }
  }

  lemma StillBehind(log: seq<UpTxn>, t: UpTxn, x: U64, mark: U64, wal: U64)
    requires Behind(log, x, mark) && mark <= wal < t.end
    ensures Behind(log + [t], x, mark)
  {
    if x < mark {
      var i :| 0 <= i < |log| && log[i].end == mark && log[i].changes != [];
      assert (log + [t])[i] == log[i];
    }
  }

  lemma StillStored(w: World, s: Sys, t: Sys, txn: UpTxn, store: Store)
    requires StoreOk(w, s, store) && LogOk(w, s)
    requires s.wal < txn.end && t.log == s.log + [txn] && s.wal <= t.wal
    requires t.point == s.point && t.applied == s.applied && t.spoiled == s.spoiled
    ensures StoreOk(w, t, store)
  {
    hide Lsn.ToPgStr;
    hide Lsn.FromPgStr;
    hide LegalLog;
    hide StateAfter;
    if store.meta.Some? {
      LongerLogSamePrefix(s.log, txn, Mark(store));
    }
  }

  lemma StillCopying(w: World, s: Sys, t: Sys, txn: UpTxn)
    requires CopyOk(w, s) && LogOk(w, s) && s.wal < txn.end && t == s.(log := s.log + [txn], wal := t.wal)
    requires s.wal <= t.wal
    ensures CopyOk(w, t)
  {
    hide Carries;
    hide Reached;
    hide LegalLog;
    hide StateAfter;
    if s.proc.Copying? {
      LongerLogSamePrefix(s.log, txn, s.point);
    }
  }

  lemma StillRunning(w: World, s: Sys, t: Sys, txn: UpTxn)
    requires ProcOk(w, s) && RowOk(w, s, Disk(s)) && s.wal < txn.end
    requires t == s.(log := s.log + [txn], wal := t.wal) && s.wal <= t.wal
    ensures ProcOk(w, t)
  {
    hide ConnOk;
    hide Behind;
    hide Safe;
    if s.proc.Up? {
      StillSafe(s, t, txn, s.proc.mem.ackPos, s.proc.mem.watermark);
      StillBehind(s.log, txn, s.proc.mem.watermark, Mark(Disk(s)), s.wal);
      if s.proc.conn.Some? {
        StillConnected(w, s, t, txn, s.proc.mem, s.proc.conn.value);
      }
    }
  }

  lemma UpstreamCommitsKeeps(w: World, s: Sys, txn: UpTxn, wal: U64, t: Sys)
    requires Inv(w, s) && Commits(w, s, txn, wal, t)
    ensures Inv(w, t)
  {
    hide StoreOk;
    hide CopyOk;
    hide ProcOk;
    hide LegalLog;
    CommitsExtend(s.log, s.wal, txn);
    StillStored(w, s, t, txn, Disk(s));
    StillCopying(w, s, t, txn);
    RowFromStore(w, s, Disk(s));
    StillRunning(w, s, t, txn);
    if Disk(s).meta.Some? {
      forall a | a in AllAcks(t)
        ensures Safe(t, a, Counted(t))
      {
        StillSafe(s, t, txn, a, Counted(s));
      }
    }
  }

  lemma RowFromStore(w: World, s: Sys, store: Store)
    requires StoreOk(w, s, store)
    ensures RowOk(w, s, store)
  {
  }

  // ---- First runs, boots, crashes ----

  lemma StartCopyKeeps(w: World, s: Sys, point: U64, chunks: Chunks, t: Sys)
    requires Inv(w, s) && StartsCopy(w, s, point, chunks, t)
    ensures Inv(w, t)
  {
    hide Carries;
    hide Script;
    hide Safe;
    NoStatements(w.read, s.proc.store.tables);
    assert Script(w.defs, chunks)[..0] == [];
    UptoSplits(s.log, point);
    assert s.log[..Upto(s.log, point)] == s.log;
    assert AllAcks(t) == [];
  }

  lemma CopyStatementKeeps(w: World, s: Sys, t: Sys)
    requires Inv(w, s) && CopiesOn(w, s, t)
    ensures Inv(w, t)
  {
    hide Carries;
    hide Script;
    hide Safe;
    hide LegalLog;
    hide RunStmt;
    var script, n := Script(w.defs, s.proc.chunks), s.proc.done;
    RunNext(w.read, s.proc.before, script[..n], script[n]);
    assert script[..n + 1] == script[..n] + [script[n]];
    assert AllAcks(t) == AllAcks(s);
  }

  /** Whatever tables the copy found, after its last statement the published ones are the
      snapshot's. */
  lemma CopyIsSnapshot(w: World, s: Sys)
    requires GoodWorld(w) && LogOk(w, s) && CopyOk(w, s)
    requires s.proc.Copying? && s.proc.done == |Script(w.defs, s.proc.chunks)|
    ensures LegalLog(w.cat, w.start, s.log[..Upto(s.log, s.point)])
    ensures Embeds(s.proc.store.tables, Through(w, s.log, s.point))
  {
    hide RowsFor;
    hide Script;
    hide RunAll;
    hide LegalLog;
    hide StateAfter;
    hide Fits;
    hide Upto;
    var script, db := Script(w.defs, s.proc.chunks), StateAfter(w.cat, w.start, s.log[..Upto(s.log, s.point)]);
    assert script[..|script|] == script;
    ScriptMakesTheCopy(w.read, s.proc.before, w.defs, s.proc.chunks);
    LogKeepsShape(w, s.log[..Upto(s.log, s.point)]);
    forall t | t in db
      ensures t in s.proc.store.tables && s.proc.store.tables[t] == db[t]
    {
      var d :| d in w.defs && d.key == t;
      assert s.proc.store.tables[t] == FullTable(w.read, d, s.proc.chunks);
    }
  }

  /** Upstream tables keep their columns. */
  lemma ChangeKeepsShape(w: World, db: Db, ch: UpChange)
    requires Applicable(w.cat, db, ch) && Defines(w.defs, db)
    ensures Defines(w.defs, Effect(w.cat, db, ch))
  {
    hide Free;
    if ch.OnRow? && ch.change.Deleted? {
      var t, row := TargetOf(w.cat[ch.relId]), ch.change.before;
      var table := db[t].(rows := db[t].rows - multiset{row});
      assert db[t] == table.(rows := table.rows + multiset{row});
      ClashFreeLess(table, multiset{row});
    } else if ch.Emptied? {
      forall d | d in w.defs
        ensures ClashFree(Effect(w.cat, db, ch)[d.key])
      {
        NoRowsNoClash(db[d.key]);
      }
    }
  }

  lemma NoRowsNoClash(table: Table)
    ensures ClashFree(table.(rows := multiset{}))
  {
  }

  lemma {:induction false} ChangesKeepShape(w: World, db: Db, changes: seq<UpChange>)
    requires Legal(w.cat, db, changes) && Defines(w.defs, db)
    ensures Defines(w.defs, Effects(w.cat, db, changes))
  {
    hide Defines;
    hide Applicable;
    hide Effect;
    if changes == [] {
    } else {
      var n := |changes| - 1;
      ChangesKeepShape(w, db, changes[..n]);
      ChangeKeepsShape(w, Effects(w.cat, db, changes[..n]), changes[n]);
    }
  }

  lemma {:induction false} LogKeepsShape(w: World, log: seq<UpTxn>)
    requires LegalLog(w.cat, w.start, log) && Defines(w.defs, w.start)
    ensures Defines(w.defs, StateAfter(w.cat, w.start, log))
  {
    hide Defines;
    hide Legal;
    hide Effects;
    if log == [] {
    } else {
      var before := log[..|log| - 1];
      LogKeepsShape(w, before);
      ChangesKeepShape(w, StateAfter(w.cat, w.start, before), log[|log| - 1].changes);
    }
  }

  lemma MarkOf(store: Store, x: U64, text: string)
    requires store.meta == Some(Meta(Lsn.ToPgStr(x), text))
    ensures Mark(store) == x
  {
    hide Lsn.FromPgStr;
    hide Lsn.ToPgStr;
    Lsn.RoundTrip(x);
  }

  lemma NothingEffective(log: seq<UpTxn>, p: U64)
    ensures EffectiveEnds(log, p, p) == []
  {
    SameEffective(log, 0, p, p, p);
  }

  lemma FinishCopyKeeps(w: World, s: Sys, t: Sys)
    requires GoodWorld(w) && Inv(w, s) && FinishesCopy(w, s, t)
    ensures Inv(w, t)
  {
    hide Lsn.ToPgStr;
    hide Mark;
    hide Safe;
    hide Script;
    hide Reached;
    hide GoodWorld;
    hide EffectiveEnds;
    CopyIsSnapshot(w, s);
    MarkOf(t.proc.store, s.point, CopyText(w));
    NothingEffective(s.log, s.point);
    assert AllAcks(t) == [];
  }

  lemma DropSlotKeeps(w: World, s: Sys, t: Sys)
    requires Inv(w, s) && s.proc.Down? && t == s.(slot := false)
    ensures Inv(w, t)
  {
    hide Safe;
    hide StoreOk;
    SameSlot(w, s, t, Disk(s));
    assert AllAcks(t) == AllAcks(s);
  }

  lemma BootKeeps(w: World, s: Sys, t: Sys)
    requires Inv(w, s) && Boots(s, t)
    ensures Inv(w, t)
  {
    hide StoreOk;
    SameSlot(w, s, t, Disk(s));
    RowFromStore(w, s, Disk(s));
    BootsAtMark(w, s, t);
    assert AllAcks(t) == AllAcks(s);
  }

  /** A restart starts from the persisted watermark and text. */
  lemma BootsAtMark(w: World, s: Sys, t: Sys)
    requires RowOk(w, s, Disk(s)) && Boots(s, t)
    ensures t.proc.Up? && t.proc.mem.watermark == Mark(Disk(s)) && t.proc.mem.store == Disk(s)
    ensures t.proc.boot == CopyText(w)
  {
    hide Lsn.FromPgStr;
    hide Lsn.ToPgStr;
    Lsn.RoundTrip(Mark(Disk(s)));
  }

  lemma KilledKeeps(w: World, s: Sys)
    requires s.proc.Up? && LogOk(w, s) && StoreOk(w, s, Disk(s)) && AcksOk(s)
    requires Disk(s).meta.Some? && s.proc.mem.watermark <= Mark(Disk(s))
    ensures Inv(w, Killed(s))
  {
    hide StoreOk;
    hide Safe;
    hide Mark;
    SameSlot(w, s, Killed(s), Disk(s));
    assert AllAcks(Killed(s)) == AllAcks(s);
    forall a | a in AllAcks(s)
      ensures Safe(s, a, Mark(Disk(s)))
    {
      SafeLater(s, a, s.proc.mem.watermark, Mark(Disk(s)));
    }
  }

  // ---- After a result on the connection ----

  /** What a running replica keeps apart from its connection. */
  ghost predicate MemInv(w: World, s: Sys, mem: State) {
    && MemOk(w, s, mem) && StoreOk(w, s, mem.store)
    && forall a | a in s.acks + mem.sent :: Safe(s, a, mem.watermark)
  }

  lemma ResumeKeeps(w: World, s: Sys, r: (State, LoopResult), c: Conn)
    requires s.proc.Up? && LogOk(w, s) && s.proc.boot == CopyText(w) && MemInv(w, s, r.0)
    requires r.1.Running? ==> ConnOk(w, s, r.0, c)
    ensures Inv(w, Resume(s, r, c))
  {
    hide ConnOk;
    hide StoreOk;
    hide Safe;
    hide Behind;
    MemBehind(w, s, r.0);
    var t := Resume(s, r, c);
    var mid := s.(proc := s.proc.(mem := r.0, conn := None));
    assert AllAcks(mid) == s.acks + r.0.sent;
    SameSlot(w, s, mid, r.0.store);
    SameSlot(w, s, t, r.0.store);
    KilledKeeps(w, mid);
    if t.proc.Up? {
      ConnSame(w, s, t, r.0, c);
      assert AllAcks(t) == s.acks + r.0.sent;
    }
  }

  lemma MemBehind(w: World, s: Sys, mem: State)
    requires MemInv(w, s, mem)
    ensures Safe(s, mem.watermark, mem.watermark) && mem.watermark <= Mark(mem.store)
  {
  }

  /** Neither the store's nor the positions' part depends on the process. */
  lemma SameSlot(w: World, s: Sys, t: Sys, store: Store)
    requires t.log == s.log && t.wal == s.wal && t.point == s.point
    requires t.applied == s.applied && t.spoiled == s.spoiled
    ensures StoreOk(w, t, store) == StoreOk(w, s, store)
    ensures forall a, x :: Safe(t, a, x) == Safe(s, a, x)
  {
  }

  lemma ConnSame(w: World, s: Sys, t: Sys, mem: State, c: Conn)
    requires t.log == s.log
    ensures ConnOk(w, t, mem, c) == ConnOk(w, s, mem, c)
  {
  }

  lemma StatusKeeps(w: World, s: Sys, mem: State, answer: Outcome)
    requires MemInv(w, s, mem)
    ensures MemInv(w, s, SendStatus(mem, answer).0)
  {
  }

  // ---- One event ----

  /** Between transactions the position to report rises to the keepalive's; a reply reports at
      least it and the watermark. */
  lemma KeepaliveKeeps(w: World, s: Sys, mem: State, c: Conn, walEnd: U64, reply: bool, status: Outcome)
    requires LogOk(w, s) && MemInv(w, s, mem) && ConnOk(w, s, mem, c) && OffersKeepalive(s, c, walEnd)
    ensures var t := OnKeepalive(mem, walEnd, reply, status).0;
            && MemInv(w, s, t) && ConnOk(w, s, t, c) && t.watermark == mem.watermark
            && (c.sent.Some? ==> t.ackPos == mem.ackPos)
            && (c.sent.None? ==> t.ackPos in {mem.ackPos, walEnd} && t.ackPos >= mem.ackPos && t.ackPos >= walEnd)
            && (if reply then Acknowledgement.ReportsGreater(mem.sent, t) else t.sent == mem.sent)
  {
    hide StoreOk;
    hide Buffered;
    hide LocalsOk;
    assert mem.vars.txn.None? ==> Covered(s.log, walEnd, mem.watermark);
    var mem1 := if mem.vars.txn.None? then mem.(ackPos := Max(mem.ackPos, walEnd)) else mem;
    assert MemInv(w, s, mem1);
    StatusKeeps(w, s, mem1, status);
    Acknowledgement.KeepaliveMoves(mem, walEnd, reply, status);
  }

  lemma RelationKeeps(w: World, s: Sys, mem: State, c: Conn, m: Msg, a: Answers)
    requires GoodWorld(w) && ConnOk(w, s, mem, c) && m.Relation? && OffersMsg(w, s, mem, c, m, a)
    ensures var r := OnRelation(mem, m, a);
            && r.1.Running? && r.0 == mem.(vars := r.0.vars) && ConnOk(w, s, r.0, c)
  {
    hide Expected;
    hide LinesOf;
    hide Line;
    hide Buffered;
    var key := Target(m.namespace, m.name);
    assert TargetOf(w.cat[m.relId]) == key;
    assert mem.vars.expected[key] == Line(key, Map(ColumnOf, m.columns));
  }

  lemma BeginKeeps(w: World, s: Sys, mem: State, c: Conn, m: Msg, a: Answers)
    requires LogOk(w, s) && ConnOk(w, s, mem, c) && m.Begin? && OffersMsg(w, s, mem, c, m, a)
    ensures ConnOk(w, s, OnMsg(mem, m, a).0, AfterMsg(c, m))
  {
    LegalPrefix(w, s.log, c.next);
    assert s.log[c.next].changes[..0] == [];
    NothingBuffered(w, s.log, c, OnMsg(mem, m, a).0.vars.txn.value);
    LocalsStay(w, mem.vars, OnMsg(mem, m, a).0.vars);
  }

  lemma NothingBuffered(w: World, log: seq<UpTxn>, c: Conn, buf: TxnBuf)
    requires c.next < |log| && LegalLog(w.cat, w.start, log[..c.next]) && buf.stmts == []
    ensures Buffered(w, log, c.(sent := Some(0)), buf)
  {
  }

  /** The text pushed for a row or truncate message is the one the upstream theory speaks
      of. */
  lemma ChangeText(w: World, mem: State, m: Msg, a: Answers)
    requires LocalsOk(w, mem.vars) && (m.Insert? || m.Update? || m.Delete? || m.Truncate?)
    requires OnMsg(mem, m, a).1.Running?
    ensures mem.vars.txn.Some? && TextFor(w.cat, m).Some?
    ensures var buf, next := mem.vars.txn.value, OnMsg(mem, m, a).0;
            && next == WithTxn(mem, next.vars.txn) && next.vars.txn.Some?
            && next.vars.txn.value.stmts == buf.stmts + [TextFor(w.cat, m).value]
  {
    hide Expected;
    hide LinesOf;
    hide Print;
    if m.Truncate? {
      var targets := seq(|m.relIds|, i requires 0 <= i < |m.relIds| => TargetOf(mem.vars.rels[m.relIds[i]]));
      assert targets == Targets(w.cat, m.relIds);
    }
  }

  /** The text takes the upstream state at this point of the transaction one change further. */
  ghost predicate TakesFurther(w: World, log: seq<UpTxn>, c: Conn, text: string) {
    && c.next < |log| && c.sent.Some? && c.sent.value < |log[c.next].changes|
    && LegalLog(w.cat, w.start, log[..c.next])
    && var db, changes, j := StateAfter(w.cat, w.start, log[..c.next]), log[c.next].changes, c.sent.value;
       && Legal(w.cat, db, changes[..j]) && Legal(w.cat, db, changes[..j + 1])
       && ExecText(Effects(w.cat, db, changes[..j]), text) == Some(Effects(w.cat, db, changes[..j + 1]))
  }

  lemma OneMoreChange(w: World, log: seq<UpTxn>, c: Conn, buf: TxnBuf, next: TxnBuf, text: string)
    requires Buffered(w, log, c, buf) && TakesFurther(w, log, c, text) && next.stmts == buf.stmts + [text]
    ensures Buffered(w, log, Advanced(c), next)
  {
    hide ExecText;
    hide Effects;
    hide Legal;
    hide LegalLog;
    hide StateAfter;
    RunScriptSnoc(StateAfter(w.cat, w.start, log[..c.next]), buf.stmts, text);
  }

  /** The statement of the next announced change takes the upstream state one change
      further. */
  lemma NextText(w: World, s: Sys, c: Conn, m: Msg)
    requires GoodWorld(w) && OffersChange(w, s, c, m)
    ensures TextFor(w.cat, m).Some? && TakesFurther(w, s.log, c, TextFor(w.cat, m).value)
  {
    hide ExecText;
    hide TextFor;
    hide Exact;
    hide Fits;
    hide Expected;
    hide Tells;
    hide Defines;
    hide Applicable;
    hide Effect;
    var db, changes, j := StateAfter(w.cat, w.start, s.log[..c.next]), s.log[c.next].changes, c.sent.value;
    StateKeepsFit(w, s.log[..c.next]);
    EffectsKeepFit(w.cat, db, changes[..j]);
    StatementRepeats(w.cat, Effects(w.cat, db, changes[..j]), changes[j], m);
    assert changes[..j + 1][..j] == changes[..j];
  }

  lemma ChangeKeeps(w: World, s: Sys, mem: State, c: Conn, m: Msg, a: Answers)
    requires GoodWorld(w) && ConnOk(w, s, mem, c) && OffersChange(w, s, c, m)
    requires (m.Insert? || m.Update? || m.Delete? || m.Truncate?) && OnMsg(mem, m, a).1.Running?
    ensures ConnOk(w, s, OnMsg(mem, m, a).0, AfterMsg(c, m))
  {
    hide ExecText;
    hide OnMsg;
    hide TextFor;
    hide Effects;
    hide Legal;
    hide StateAfter;
    hide LegalLog;
    hide Buffered;
    hide TakesFurther;
    hide LocalsOk;
    hide GoodWorld;
    ChangeText(w, mem, m, a);
    NextText(w, s, c, m);
    var next := OnMsg(mem, m, a).0;
    OneMoreChange(w, s.log, c, mem.vars.txn.value, next.vars.txn.value, TextFor(w.cat, m).value);
    LocalsStay(w, mem.vars, next.vars);
  }

  lemma LocalsStay(w: World, vars: Locals, next: Locals)
    requires LocalsOk(w, vars) && next == vars.(txn := next.txn)
    ensures LocalsOk(w, next)
  {
  }

  lemma {:induction false} StateKeepsFit(w: World, log: seq<UpTxn>)
    requires Fits(w.cat, w.start) && LegalLog(w.cat, w.start, log)
    ensures Fits(w.cat, StateAfter(w.cat, w.start, log))
  {
    if log == [] {
    } else {
      var before := log[..|log| - 1];
      StateKeepsFit(w, before);
      EffectsKeepFit(w.cat, StateAfter(w.cat, w.start, before), log[|log| - 1].changes);
    }
  }

  // ---- Commit ----

  /** The commit of the transaction in flight, all of its changes sent. */
  ghost predicate Committing(w: World, s: Sys, mem: State, c: Conn, end: U64) {
    && LogOk(w, s) && MemInv(w, s, mem) && ConnOk(w, s, mem, c)
    && c.next < |s.log| && c.sent == Some(|s.log[c.next].changes|) && end == s.log[c.next].end
  }

  lemma PassedNext(log: seq<UpTxn>, n: nat, x: U64, y: U64)
    requires n < |log| && Passed(log, n, x) && x <= y && (log[n].end <= y || log[n].changes == [])
    ensures Passed(log, n + 1, y)
  {
  }

  lemma ConnAfterCommit(w: World, s: Sys, mem: State, next: State, c: Conn)
    requires ConnOk(w, s, mem, c) && c.next < |s.log| && mem.watermark <= next.watermark
    requires s.log[c.next].end <= next.watermark || s.log[c.next].changes == []
    requires next.vars == mem.vars.(txn := None)
    ensures ConnOk(w, s, next, Conn(c.next + 1, None))
  {
    PassedNext(s.log, c.next, mem.watermark, next.watermark);
  }

  /** The end of the next transaction is a safe position once it is applied or empty. */
  lemma EndIsSafe(w: World, s: Sys, n: nat, x: U64, y: U64)
    requires LogOk(w, s) && n < |s.log| && Passed(s.log, n, x) && x <= y
    requires s.log[n].end <= y || s.log[n].changes == []
    ensures Safe(s, s.log[n].end, y)
  {
  }

  lemma SafeLater(s: Sys, a: U64, x: U64, y: U64)
    requires Safe(s, a, x) && x <= y
    ensures Safe(s, a, y)
  {
  }

  /** What is applied next, with memory behind, is the transaction applied last. */
  lemma NextIsLast(w: World, s: Sys, mem: State, c: Conn, end: U64)
    requires Committing(w, s, mem, c, end) && end > mem.watermark && mem.vars.txn.value.stmts != []
    ensures Mark(mem.store) <= end && s.log[c.next].changes != []
    ensures mem.watermark < Mark(mem.store) ==> end == Mark(mem.store)
  {
    hide StoreOk;
    hide StateAfter;
    hide Mark;
    var changes, mark := s.log[c.next].changes, Mark(mem.store);
    assert changes[..|changes|] == changes;
    if mem.watermark < mark {
      var i :| 0 <= i < |s.log| && s.log[i].end == mark && s.log[i].changes != [];
      assert c.next <= i;
      assert s.log[c.next].end >= mark;
    }
  }

  /** With memory up to date, all statements of the transaction and the watermark take the
      published tables to the upstream state just after the transaction. */
  lemma AppliedTables(w: World, s: Sys, mem: State, c: Conn, end: U64)
    requires Committing(w, s, mem, c, end) && end > mem.watermark == Mark(mem.store)
    requires mem.vars.txn.value.stmts != [] && !s.spoiled
    ensures LegalLog(w.cat, w.start, s.log[..Upto(s.log, end)])
    ensures var tables := RunScript(mem.store.tables, mem.vars.txn.value.stmts);
            tables.Some? && Embeds(tables.value, Through(w, s.log, end))
  {
    hide Lsn.FromPgStr;
    hide Lsn.ToPgStr;
    hide RunScript;
    hide Effects;
    hide EffectiveEnds;
    hide Safe;
    var n, changes, stmts := c.next, s.log[c.next].changes, mem.vars.txn.value.stmts;
    assert changes[..|changes|] == changes;
    TablesAtNext(w, s.log, n, mem.watermark);
    StateStep(w, s.log, n);
    UptoNext(s.log, n);
    ScriptFrames(Through(w, s.log, mem.watermark), mem.store.tables, stmts);
  }

  lemma NonDescendingSnoc(xs: seq<U64>, x: U64)
    requires NonDescending(xs) && forall e | e in xs :: e <= x
    ensures NonDescending(xs + [x])
  {
    var all := xs + [x];
    forall i, j | 0 <= i < j < |all|
      ensures all[i] <= all[j]
    {
      assert xs[i] in xs;
    }
  }

  /** One more transaction took effect, the next one or the last one again. */
  lemma AppliedOnce(s: Sys, n: nat, x: U64, mark: U64, spoiled: bool)
    requires Increasing(s.log) && AppliedOk(s, mark) && n < |s.log| && Passed(s.log, n, x)
    requires s.point <= x < s.log[n].end && s.log[n].changes != []
    requires x == mark || s.log[n].end == mark
    requires spoiled ==> s.spoiled || s.log[n].end in s.applied
    ensures AppliedOk(s.(applied := s.applied + [s.log[n].end], spoiled := spoiled), s.log[n].end)
  {
    hide EffectiveEnds;
    var end := s.log[n].end;
    forall e | e in s.applied
      ensures e <= end
    {
      var i := AppliedIsEffective(s.log, s.point, mark, e);
    }
    NonDescendingSnoc(s.applied, end);
    if x == mark {
      OneMoreApplied(s.log, n, s.point, x);
    } else {
      EffectiveIsApplied(s.log, s.point, mark, n);
    }
    assert forall e :: e in s.applied + [end] <==> e in s.applied || e == end;
    if Distinct(s.applied + [end]) {
      DistinctSnoc(s.applied, end);
    }
  }

  lemma DistinctSnoc(xs: seq<U64>, x: U64)
    requires Distinct(xs + [x])
    ensures Distinct(xs) && x !in xs
  {
    forall i, j | 0 <= i < j < |xs|
      ensures xs[i] != xs[j]
    {
      assert (xs + [x])[i] != (xs + [x])[j];
    }
    forall i | 0 <= i < |xs|
      ensures xs[i] != x
    {
      assert (xs + [x])[i] != (xs + [x])[|xs|];
    }
  }

  /** The transaction in flight takes effect. */
  ghost predicate TakesEffect(w: World, s: Sys, mem: State, c: Conn, m: Msg, a: Answers) {
    && m.Commit? && Committing(w, s, mem, c, m.endLsn) && AppliedEnd(mem, m, a) != []
    && CommitPossible(mem, m.endLsn, a.apply)
  }

  lemma EffectiveScriptRuns(mem: State, m: Msg, a: Answers)
    requires m.Commit? && AppliedEnd(mem, m, a) != [] && CommitPossible(mem, m.endLsn, a.apply)
    ensures RunScript(mem.store.tables, mem.vars.txn.value.stmts).Some?
  {
    var stmts := mem.vars.txn.value.stmts;
    EffectIffCommitted(0, |stmts| + 2, a.apply);
    assert stmts[..|stmts|] == stmts;
  }

  /** The store holds the transaction and its watermark, and the tables are still right unless
      a second effect changed them. */
  lemma AppliedStoreOk(w: World, s: Sys, mem: State, c: Conn, m: Msg, a: Answers)
    requires TakesEffect(w, s, mem, c, m, a)
    ensures var store := Applied(mem.store, mem.vars.txn.value.stmts, m.endLsn);
            && store.meta.Some? && Mark(store) == m.endLsn && OnMsg(mem, m, a).0.store == store
            && StoreOk(w, NotedMsg(s, mem, m, a), store)
  {
    hide Lsn.FromPgStr;
    hide Lsn.ToPgStr;
    hide RunScript;
    hide EffectiveEnds;
    hide ConnOk;
    hide Behind;
    hide LegalLog;
    hide StateAfter;
    hide Safe;
    hide AppliedOk;
    hide CommitPossible;
    hide Embeds;
    var stmts, t, mark := mem.vars.txn.value.stmts, NotedMsg(s, mem, m, a), Mark(mem.store);
    var store := Applied(mem.store, stmts, m.endLsn);
    EffectiveScriptRuns(mem, m, a);
    NextIsLast(w, s, mem, c, m.endLsn);
    MarkOf(store, m.endLsn, CopyText(w));
    ConnPassed(w, s, mem, c);
    BehindLess(s.log, mem.watermark, mark);
    AppliedOnce(s, c.next, mem.watermark, mark, t.spoiled);
    if !t.spoiled {
      if mem.watermark == mark {
        AppliedTables(w, s, mem, c, m.endLsn);
      } else {
        LastIsIn(s, c.next, mark);
      }
    }
  }

  lemma LastIsIn(s: Sys, n: nat, mark: U64)
    requires AppliedOk(s, mark) && n < |s.log| && s.log[n].end == mark > s.point && s.log[n].changes != []
    ensures mark in s.applied
  {
    EffectiveIsApplied(s.log, s.point, mark, n);
  }

  /** A statement on the tables of `part` that runs among more tables runs on them alone. */
  lemma RunsAlone(before: Db, part: Db, all: Db, text: string)
    requires Evolution.SameShape(before, part) && Embeds(all, part)
    requires ExecText(before, text).Some? && ExecText(all, text).Some?
    ensures ExecText(part, text).Some?
  {
    hide ParseStmt;
    hide Rewrite;
    hide Assign;
    hide ClashFree;
    hide Database.Distinct;
    hide Database.Known;
    var s := ParseStmt(text).value;
    LostReply.ShapeDecides(before, part, s);
    if s.InsertRow? || s.UpdateRows? {
      assert part[s.target] == all[s.target];
    }
  }

  lemma {:induction false} ScriptRunsAlone(before: Db, part: Db, all: Db, stmts: seq<string>)
    requires Evolution.SameShape(before, part) && Embeds(all, part)
    requires RunScript(before, stmts).Some? && RunScript(all, stmts).Some?
    ensures RunScript(part, stmts).Some?
  {
    hide ExecText;
    hide Evolution.SameShape;
    hide Embeds;
    if stmts == [] {
    } else {
      var n := |stmts| - 1;
      ScriptRunsAlone(before, part, all, stmts[..n]);
      ScriptFrames(part, all, stmts[..n]);
      LostReply.RefusedIff(before, part, stmts[..n]);
      RunsAlone(RunScript(before, stmts[..n]).value, RunScript(part, stmts[..n]).value,
                RunScript(all, stmts[..n]).value, stmts[n]);
    }
  }

  /** The statements of a transaction that run again on the local tables do so on the state they
      led to. */
  lemma RunsAgain(w: World, s: Sys, mem: State, c: Conn, end: U64)
    requires Committing(w, s, mem, c, end) && RunScript(mem.store.tables, mem.vars.txn.value.stmts).Some?
    requires LegalLog(w.cat, w.start, s.log[..Upto(s.log, end)])
    requires Embeds(mem.store.tables, Through(w, s.log, end))
    ensures RunScript(Through(w, s.log, end), mem.vars.txn.value.stmts).Some?
  {
    hide RunScript;
    hide Effects;
    hide Legal;
    hide MemInv;
    var n, changes, stmts := c.next, s.log[c.next].changes, mem.vars.txn.value.stmts;
    assert changes[..|changes|] == changes;
    StateStep(w, s.log, n);
    UptoNext(s.log, n);
    var before := StateAfter(w.cat, w.start, s.log[..n]);
    Evolution.ScriptsKeepColumns(before, stmts);
    ScriptRunsAlone(before, Through(w, s.log, end), mem.store.tables, stmts);
  }

  lemma FrameDecides(part: Db, all: Db, partAfter: Db, allAfter: Db)
    requires Embeds(all, part) && Frames(part, all, partAfter, allAfter)
    ensures Embeds(allAfter, part) <==> allAfter == all
  {
    if Embeds(allAfter, part) {
      assert forall t | t in all :: allAfter[t] == all[t];
    }
  }

  /** A transaction that takes effect again, on tables that mirror the upstream, leaves a mirror
      exactly when it changes nothing: what is recorded as spoiled is. */
  lemma SecondEffectSpoilsIff(w: World, s: Sys, mem: State, c: Conn, m: Msg, a: Answers)
    requires TakesEffect(w, s, mem, c, m, a) && mem.watermark < Mark(mem.store) && !s.spoiled
    ensures LegalLog(w.cat, w.start, s.log[..Upto(s.log, m.endLsn)])
    ensures var tables := OnMsg(mem, m, a).0.store.tables;
            && (Embeds(tables, Through(w, s.log, m.endLsn)) <==> tables == mem.store.tables)
            && (NotedMsg(s, mem, m, a).spoiled <==> tables != mem.store.tables)
  {
    hide Lsn.FromPgStr;
    hide Lsn.ToPgStr;
    hide RunScript;
    hide LegalLog;
    hide StateAfter;
    hide Embeds;
    hide ConnOk;
    hide Behind;
    hide Safe;
    hide CommitPossible;
    hide EffectiveEnds;
    var stmts := mem.vars.txn.value.stmts;
    NextIsLast(w, s, mem, c, m.endLsn);
    EffectiveScriptRuns(mem, m, a);
    AppliedStoreOk(w, s, mem, c, m, a);
    RunsAgain(w, s, mem, c, m.endLsn);
    LastIsIn(s, c.next, m.endLsn);
    var part := Through(w, s.log, m.endLsn);
    ScriptFrames(part, mem.store.tables, stmts);
    FrameDecides(part, mem.store.tables, RunScript(part, stmts).value, RunScript(mem.store.tables, stmts).value);
  }

  lemma ConnPassed(w: World, s: Sys, mem: State, c: Conn)
    requires ConnOk(w, s, mem, c)
    ensures Passed(s.log, c.next, mem.watermark)
  {
  }

  lemma BehindLess(log: seq<UpTxn>, x: U64, mark: U64)
    requires Behind(log, x, mark)
    ensures x <= mark
  {
  }

  /** What a commit with statements leaves in memory. */
  lemma CommitLeaves(mem: State, m: Msg, a: Answers)
    requires Applies(mem, m)
    ensures var r, t := OnMsg(mem, m, a), mem.(vars := mem.vars.(txn := None));
            match ApplyFate(mem, a)
            case Rejected(_) => r.0 == t && r.1.Errored?
            case ReplyLost(e) => r.0 == t.(store := r.0.store) && r.1 == Errored(e)
            case Runs =>
              && r.0 == t.(store := r.0.store, watermark := m.endLsn, ackPos := Max(mem.ackPos, m.endLsn),
                           published := r.0.published)
              && r.1.Running?
  {
    hide ApplyFate;
  }

  /** A commit that changes nothing: already applied, or without statements. */
  lemma IdleCommitKeeps(w: World, s: Sys, mem: State, c: Conn, m: Msg, a: Answers)
    requires m.Commit? && Committing(w, s, mem, c, m.endLsn)
    requires m.endLsn <= mem.watermark || mem.vars.txn.value.stmts == []
    ensures var r := OnMsg(mem, m, a);
            && MemInv(w, s, r.0) && ConnOk(w, s, r.0, AfterMsg(c, m))
            && r.1.Running? && r.0.store == mem.store && r.0.watermark == mem.watermark
  {
    hide Applied;
    hide LegalLog;
    hide LocalsOk;
    hide ApplyFate;
    hide StoreOk;
    hide StateAfter;
    var next, changes := OnMsg(mem, m, a).0, s.log[c.next].changes;
    assert changes[..|changes|] == changes;
    EndIsSafe(w, s, c.next, mem.watermark, mem.watermark);
    ConnAfterCommit(w, s, mem, next, c);
    assert forall x | x in s.acks + next.sent :: x in s.acks + mem.sent;
  }

  lemma NotedRest(s: Sys, mem: State, m: Msg, a: Answers)
    ensures var t := NotedMsg(s, mem, m, a); t == s.(applied := t.applied, spoiled := t.spoiled)
  {
    hide OnMsg;
  }

  /** Memory and store at the end of the same transaction. */
  lemma CaughtUp(w: World, s: Sys, t: Sys, mem: State, next: State, end: U64)
    requires MemInv(w, s, mem) && t == s.(applied := t.applied, spoiled := t.spoiled)
    requires StoreOk(w, t, next.store) && next.store.meta.Some? && Mark(next.store) == end
    requires next.watermark == end >= mem.watermark && next.ackPos == Max(mem.ackPos, end) && next.sent == mem.sent
    requires Safe(t, end, end)
    ensures MemInv(w, t, next)
  {
    hide StoreOk;
    hide Mark;
    forall x | x in t.acks + next.sent || x == mem.ackPos
      ensures Safe(t, x, end)
    {
      assert x in s.acks + mem.sent || x == mem.ackPos;
      SafeLater(t, x, mem.watermark, end);
    }
  }

  /** The store at the end of a transaction that memory does not count as applied. */
  lemma LeftBehind(w: World, s: Sys, t: Sys, mem: State, next: State)
    requires MemInv(w, s, mem) && t == s.(applied := t.applied, spoiled := t.spoiled)
    requires StoreOk(w, t, next.store) && next.store.meta.Some?
    requires Behind(s.log, mem.watermark, Mark(next.store))
    requires next == mem.(vars := next.vars, store := next.store)
    ensures MemInv(w, t, next)
  {
    hide StoreOk;
    hide Mark;
    hide Behind;
    assert forall x | x in t.acks + next.sent :: x in s.acks + mem.sent;
  }

  lemma AppliedCommitKeeps(w: World, s: Sys, mem: State, c: Conn, m: Msg, a: Answers)
    requires TakesEffect(w, s, mem, c, m, a) && ApplyFate(mem, a).Runs?
    ensures var r, t := OnMsg(mem, m, a), NotedMsg(s, mem, m, a);
            MemInv(w, t, r.0) && ConnOk(w, t, r.0, AfterMsg(c, m))
  {
    hide OnMsg;
    hide ApplyFate;
    hide NotedMsg;
    hide StoreOk;
    hide Applied;
    hide CommitPossible;
    hide ConnOk;
    hide MemInv;
    hide Safe;
    hide Mark;
    CommitLeaves(mem, m, a);
    NotedRest(s, mem, m, a);
    var next, t := OnMsg(mem, m, a).0, NotedMsg(s, mem, m, a);
    AppliedStoreOk(w, s, mem, c, m, a);
    ConnPassed(w, s, mem, c);
    EndIsSafe(w, t, c.next, mem.watermark, m.endLsn);
    CaughtUp(w, s, t, mem, next, m.endLsn);
    ConnAfterCommit(w, s, mem, next, c);
    ConnSame(w, s, t, next, AfterMsg(c, m));
  }

  lemma BehindOne(log: seq<UpTxn>, n: nat, x: U64)
    requires Increasing(log) && n < |log| && Passed(log, n, x) && x < log[n].end && log[n].changes != []
    ensures Behind(log, x, log[n].end)
  {
  }

  /** The store is one transaction ahead of memory, and every position reported is still safe
      by what memory knows. */
  lemma LostReplyKeeps(w: World, s: Sys, mem: State, c: Conn, m: Msg, a: Answers)
    requires TakesEffect(w, s, mem, c, m, a) && ApplyFate(mem, a).ReplyLost?
    ensures var r, t := OnMsg(mem, m, a), NotedMsg(s, mem, m, a);
            && MemInv(w, t, r.0) && r.1.Errored?
            && r.0.watermark == mem.watermark < Mark(r.0.store) == m.endLsn
  {
    hide OnMsg;
    hide ApplyFate;
    hide NotedMsg;
    hide StoreOk;
    hide Applied;
    hide CommitPossible;
    hide ConnOk;
    hide MemInv;
    hide Mark;
    CommitLeaves(mem, m, a);
    NotedRest(s, mem, m, a);
    AppliedStoreOk(w, s, mem, c, m, a);
    NextIsLast(w, s, mem, c, m.endLsn);
    ConnPassed(w, s, mem, c);
    BehindOne(s.log, c.next, mem.watermark);
    LeftBehind(w, s, NotedMsg(s, mem, m, a), mem, OnMsg(mem, m, a).0);
  }

  lemma RejectedCommitKeeps(w: World, s: Sys, mem: State, c: Conn, m: Msg, a: Answers)
    requires m.Commit? && Committing(w, s, mem, c, m.endLsn)
    requires Applies(mem, m) && ApplyFate(mem, a).Rejected?
    ensures MemInv(w, s, OnMsg(mem, m, a).0) && OnMsg(mem, m, a).1.Errored?
  {
    hide OnMsg;
    hide ApplyFate;
    CommitLeaves(mem, m, a);
    hide StoreOk;
    assert forall x | x in s.acks + OnMsg(mem, m, a).0.sent :: x in s.acks + mem.sent;
  }

  // ---- Any event ----

  /** The replica's part of the invariant after an event with the given result. */
  ghost predicate Landed(w: World, t: Sys, r: (State, LoopResult), c: Conn) {
    MemInv(w, t, r.0) && (r.1.Running? ==> ConnOk(w, t, r.0, c))
  }

  lemma NothingNewKeeps(mem: State, a: Answers)
    requires NothingNew(mem, a)
    ensures OnDdl(mem, a).0 == mem
  {
  }

  lemma CommitLands(w: World, s: Sys, mem: State, c: Conn, m: Msg, a: Answers)
    requires m.Commit? && Committing(w, s, mem, c, m.endLsn) && CommitPossible(mem, m.endLsn, a.apply)
    ensures Landed(w, NotedMsg(s, mem, m, a), OnMsg(mem, m, a), AfterMsg(c, m))
  {
    hide OnMsg;
    hide MemInv;
    hide ApplyFate;
    hide CommitPossible;
    assert s.applied + [] == s.applied && mem.vars.txn.Some?;
    hide ConnOk;
    if m.endLsn <= mem.watermark || mem.vars.txn.value.stmts == [] {
      IdleCommitKeeps(w, s, mem, c, m, a);
    } else {
      match ApplyFate(mem, a) {
        case Rejected(_) => RejectedCommitKeeps(w, s, mem, c, m, a);
        case Runs => AppliedCommitKeeps(w, s, mem, c, m, a);
        case ReplyLost(_) => LostReplyKeeps(w, s, mem, c, m, a);
      }
    }
  }

  lemma SameMemKeeps(w: World, s: Sys, mem: State, next: State)
    requires MemInv(w, s, mem) && next == mem.(vars := next.vars)
    ensures MemInv(w, s, next)
  {
    hide StoreOk;
  }

  /** A row or truncate message touches the open transaction only. */
  lemma ChangeTouchesTxn(mem: State, m: Msg, a: Answers)
    requires m.Insert? || m.Update? || m.Delete? || m.Truncate?
    ensures OnMsg(mem, m, a).0 == mem.(vars := OnMsg(mem, m, a).0.vars)
  {
    hide PlanOf;
    hide Print;
  }

  lemma MsgLands(w: World, s: Sys, mem: State, c: Conn, m: Msg, a: Answers)
    requires GoodWorld(w) && LogOk(w, s) && MemInv(w, s, mem) && ConnOk(w, s, mem, c)
    requires OffersMsg(w, s, mem, c, m, a) && (m.Commit? ==> CommitPossible(mem, m.endLsn, a.apply))
    ensures Landed(w, NotedMsg(s, mem, m, a), OnMsg(mem, m, a), AfterMsg(c, m))
  {
    hide GoodWorld;
    hide LogOk;
    hide MemInv;
    hide ConnOk;
    hide OnRelation;
    hide OnCommit;
    hide OnTruncate;
    hide Replication.OnRow;
    hide OffersChange;
    hide CommitPossible;
    assert s.applied + [] == s.applied;
    match m {
      case Begin(_, _, _) =>
        BeginKeeps(w, s, mem, c, m, a);
        SameMemKeeps(w, s, mem, OnMsg(mem, m, a).0);
      case Relation(_, _, _, _, _) =>
        RelationKeeps(w, s, mem, c, m, a);
        SameMemKeeps(w, s, mem, OnMsg(mem, m, a).0);
      case Commit(_, _, _) => CommitLands(w, s, mem, c, m, a);
      case Message(prefix, _) =>
        if prefix == DDL_SIGNAL_PREFIX {
          NothingNewKeeps(mem, a);
        }
      case Other =>
      case _ =>
        ChangeTouchesTxn(mem, m, a);
        SameMemKeeps(w, s, mem, OnMsg(mem, m, a).0);
        if OnMsg(mem, m, a).1.Running? {
          ChangeKeeps(w, s, mem, c, m, a);
        }
    }
  }

  lemma EventLands(w: World, s: Sys, mem: State, c: Conn, e: Event)
    requires GoodWorld(w) && LogOk(w, s) && MemInv(w, s, mem) && ConnOk(w, s, mem, c)
    requires Offers(w, s, mem, c, e) && Possible(mem, e)
    ensures Landed(w, Noted(s, mem, e), Step(mem, e), AfterEvent(c, e))
  {
    hide GoodWorld;
    hide LogOk;
    hide MemInv;
    hide ConnOk;
    hide OnMsg;
    hide OnKeepalive;
    hide OffersMsg;
    hide OffersKeepalive;
    hide DecodeMsg;
    hide CommitPossible;
    hide NotedMsg;
    match e {
      case StatusDue(status) =>
        StatusKeeps(w, s, mem, status);
        ConnIgnoresSent(w, s, mem, SendStatus(mem, status).0, c);
      case Received(Keepalive(walEnd, reply), a) => KeepaliveKeeps(w, s, mem, c, walEnd, reply, a.status);
      case Received(XLogData(data), a) =>
        if DecodeMsg(data).Success? {
          MsgLands(w, s, mem, c, DecodeMsg(data).value, a);
        }
      case _ =>
    }
  }

  lemma ConnIgnoresSent(w: World, s: Sys, mem: State, next: State, c: Conn)
    requires ConnOk(w, s, mem, c) && next == mem.(sent := next.sent)
    ensures ConnOk(w, s, next, c)
  {
  }

  // ---- Any move ----

  lemma InvToMem(w: World, s: Sys)
    requires Inv(w, s) && s.proc.Up?
    ensures MemInv(w, s, s.proc.mem) && s.proc.boot == CopyText(w)
    ensures s.proc.conn.Some? ==> ConnOk(w, s, s.proc.mem, s.proc.conn.value)
  {
    hide StoreOk;
    hide Safe;
    hide ConnOk;
    assert AllAcks(s) == s.acks + s.proc.mem.sent;
  }

  lemma ReadsKeeps(w: World, s: Sys, e: Event, t: Sys)
    requires GoodWorld(w) && Inv(w, s) && ReadsEvent(w, s, e, t)
    ensures Inv(w, t)
  {
    hide MemInv;
    hide ConnOk;
    hide Step;
    hide Possible;
    hide Offers;
    hide GoodWorld;
    hide Resume;
    hide AppliedEnd;
    InvToMem(w, s);
    var mem, c := s.proc.mem, s.proc.conn.value;
    EventLands(w, s, mem, c, e);
    ResumeKeeps(w, Noted(s, mem, e), Step(mem, e), AfterEvent(c, e));
  }

  /** Where the upstream may resume, everything before is applied or empty. */
  lemma ResumePassed(w: World, s: Sys, n: nat)
    requires Inv(w, s) && s.proc.Up? && MayResumeAt(s, s.proc.mem.watermark, n)
    ensures Passed(s.log, n, s.proc.mem.watermark)
  {
  }

  lemma ConnectKeeps(w: World, s: Sys, n: nat, status: Outcome, t: Sys)
    requires Inv(w, s) && Connects(s, n, status, t)
    ensures Inv(w, t)
  {
    hide Expected;
    hide LinesOf;
    InvToMem(w, s);
    ResumePassed(w, s, n);
    FreshLands(w, s, n, status) by { hide StoreOk; }
    ResumeKeeps(w, s, SendStatus(Fresh(s.proc.mem, s.proc.boot), status), Conn(n, None)) by {
      hide MemInv;
      hide ConnOk;
    }
  }

  lemma FreshLands(w: World, s: Sys, n: nat, status: Outcome)
    requires s.proc.Up? && MemInv(w, s, s.proc.mem) && s.proc.boot == CopyText(w)
    requires Passed(s.log, n, s.proc.mem.watermark)
    ensures Landed(w, s, SendStatus(Fresh(s.proc.mem, s.proc.boot), status), Conn(n, None))
  {
    hide StoreOk;
    hide Safe;
    var start := Fresh(s.proc.mem, s.proc.boot);
    assert MemInv(w, s, start);
    StatusKeeps(w, s, start, status);
  }

  lemma MoveKeeps(w: World, s: Sys, m: Move, t: Sys)
    requires GoodWorld(w) && Inv(w, s) && Moves(w, s, m, t)
    ensures Inv(w, t)
  {
    hide Inv;
    hide GoodWorld;
    hide Commits;
    hide StartsCopy;
    hide FinishesCopy;
    hide Boots;
    hide Connects;
    hide ReadsEvent;
    hide CopiesOn;
    hide Crashes;
    match m {
      case UpstreamCommits(txn, wal) => UpstreamCommitsKeeps(w, s, txn, wal, t);
      case Boot => BootKeeps(w, s, t);
      case Connect(n, status) => ConnectKeeps(w, s, n, status, t);
      case Reads(e) => ReadsKeeps(w, s, e, t);
      case Crash => CrashKeeps(w, s, t);
      case StartCopy(point, chunks) => StartCopyKeeps(w, s, point, chunks, t);
      case CopyStatement => CopyStatementKeeps(w, s, t);
      case FinishCopy => FinishCopyKeeps(w, s, t);
      case DropSlot => DropSlotKeeps(w, s, t);
      case Forget => NoStateRowKeeps(w, s, t);
    }
  }

  lemma NoStateRowKeeps(w: World, s: Sys, t: Sys)
    requires Inv(w, s) && t == s.(proc := t.proc) && Disk(t).meta.None?
    requires t.proc.Down?
    ensures Inv(w, t)
  {
  }

  lemma CrashKeeps(w: World, s: Sys, t: Sys)
    requires Inv(w, s) && Crashes(s, t)
    ensures Inv(w, t)
  {
    hide Safe;
    hide StoreOk;
    hide Behind;
    if s.proc.Up? {
      BehindLess(s.log, s.proc.mem.watermark, Mark(Disk(s)));
      KilledKeeps(w, s);
    } else {
      SameSlot(w, s, t, Disk(s));
      assert AllAcks(t) == AllAcks(s);
    }
  }

  // ---- Any run ----

  lemma {:induction false} EveryRunKeeps(w: World, run: seq<Sys>, moves: seq<Move>, i: nat)
    requires Execution(w, run, moves) && i < |run|
    ensures Inv(w, run[i])
  {
    hide Moves;
    hide LegalLog;
    hide GoodWorld;
    if i == 0 {
    } else {
      EveryRunKeeps(w, run, moves, i - 1);
      MoveKeeps(w, run[i - 1], moves[i - 1], run[i]);
    }
  }

  /** The persisted watermark is `x`. Since the slot was created each transaction with changes
      up to `x` took effect, in commit order and none past it; and unless a second effect
      changed the tables, the published ones are the upstream's after exactly the transactions
      that end at or before `x`. */
  ghost predicate Mirrors(w: World, s: Sys, x: U64) {
    && Disk(s).meta.Some? && Lsn.FromPgStr(Disk(s).meta.value.watermark) == Success(x)
    && NonDescending(s.applied)
    && (forall e | e in s.applied :: exists k | 0 <= k < |s.log| :: s.log[k].end == e)
    && (forall k | 0 <= k < |s.log| :: s.log[k].end in s.applied <==> Effective(s.log[k], s.point, x))
    && (Distinct(s.applied) ==> !s.spoiled && s.applied == EffectiveEnds(s.log, s.point, x))
    && (!s.spoiled ==>
          && LegalLog(w.cat, w.start, s.log[..Upto(s.log, x)])
          && Embeds(Disk(s).tables, Through(w, s.log, x)))
  }

  lemma AppliedExactly(log: seq<UpTxn>, p: U64, x: U64, k: nat)
    requires Increasing(log) && k < |log|
    ensures log[k].end in EffectiveEnds(log, p, x) <==> Effective(log[k], p, x)
  {
    if log[k].end in EffectiveEnds(log, p, x) {
      var i := AppliedIsEffective(log, p, x, log[k].end);
      assert !(i < k) && !(k < i);
    }
    if Effective(log[k], p, x) {
      EffectiveIsApplied(log, p, x, k);
    }
  }

  lemma AscendingLast(a: seq<U64>, e: U64)
    requires Ascending(a) && e in a
    ensures e <= a[|a| - 1] && (e == a[|a| - 1] || e in a[..|a| - 1])
  {
  }

  lemma {:induction false} SameAscending(a: seq<U64>, b: seq<U64>)
    requires Ascending(a) && Ascending(b) && forall e :: e in a <==> e in b
    ensures a == b
  {
    assert (a == [] || a[|a| - 1] in a) && (b == [] || b[|b| - 1] in b);
    if a == [] {
    } else {
      var n, m := |a| - 1, |b| - 1;
      AscendingLast(a, b[m]);
      AscendingLast(b, a[n]);
      forall e
        ensures e in a[..n] <==> e in b[..m]
      {
        if e in a[..n] {
          AscendingLast(b, e);
        }
        if e in b[..m] {
          AscendingLast(a, e);
        }
      }
      SameAscending(a[..n], b[..m]);
    }
  }

  lemma OnceEach(ends: seq<U64>)
    requires NonDescending(ends) && Distinct(ends)
    ensures Ascending(ends)
  {
  }

  lemma StoreMirrors(w: World, s: Sys)
    requires Increasing(s.log) && StoreOk(w, s, Disk(s)) && Disk(s).meta.Some?
    ensures Mirrors(w, s, Mark(Disk(s)))
  {
    hide Lsn.FromPgStr;
    hide Lsn.ToPgStr;
    hide LegalLog;
    hide StateAfter;
    hide EffectiveEnds;
    var x := Mark(Disk(s));
    Lsn.RoundTrip(x);
    if Distinct(s.applied) {
      OnceEach(s.applied);
      AppliedInOrder(s.log, s.point, x);
      SameAscending(s.applied, EffectiveEnds(s.log, s.point, x));
    }
    forall k | 0 <= k < |s.log|
      ensures s.log[k].end in s.applied <==> Effective(s.log[k], s.point, x)
    {
      AppliedExactly(s.log, s.point, x, k);
    }
    forall e | e in s.applied
      ensures exists k | 0 <= k < |s.log| :: s.log[k].end == e
    {
      var k := AppliedIsEffective(s.log, s.point, x, e);
    }
  }

  /** In every run, with disconnects, resends, lost replies, crashes and restarts at any point,
      whenever a first run has completed the local store mirrors the upstream at its own
      watermark. */
  lemma ReplicaMirrorsUpstream(w: World, run: seq<Sys>, moves: seq<Move>, i: nat)
    requires Execution(w, run, moves) && i < |run| && Disk(run[i]).meta.Some?
    ensures Mirrors(w, run[i], Mark(Disk(run[i])))
  {
    hide Moves;
    hide Mirrors;
    hide StoreOk;
    EveryRunKeeps(w, run, moves, i);
    StoreMirrors(w, run[i]);
  }

  /** Whatever position was ever reported to this slot, a transaction that ends at or before
      it is in the durable store, or has no changes. */
  lemma AcksAreSafe(w: World, run: seq<Sys>, moves: seq<Move>, i: nat, a: U64, k: nat)
    requires Execution(w, run, moves) && i < |run| && Disk(run[i]).meta.Some?
    requires a in AllAcks(run[i]) && k < |run[i].log| && run[i].log[k].end <= a
    ensures k < Upto(run[i].log, Mark(Disk(run[i]))) || run[i].log[k].changes == []
  {
    hide Moves;
    hide Mark;
    hide StoreOk;
    hide ConnOk;
    EveryRunKeeps(w, run, moves, i);
    var s := run[i];
    UptoSplits(s.log, Mark(Disk(s)));
    assert Safe(s, a, Counted(s));
    assert Counted(s) <= Mark(Disk(s));
  }

  // ---- A first run can complete ----

  /** The machine after `n` statements of a copy. */
  ghost function CopyingAt(w: World, s: Sys, chunks: Chunks, n: nat): Sys
    requires s.proc.Down? && n <= |Script(w.defs, chunks)|
    requires RunAll(w.read, s.proc.store.tables, Script(w.defs, chunks)[..n]).Some?
  {
    var before := s.proc.store.tables;
    var tables := RunAll(w.read, before, Script(w.defs, chunks)[..n]).value;
    s.(proc := Copying(s.proc.store.(tables := tables), before, chunks, n))
  }

  lemma CopyStatementRuns(w: World, s: Sys, chunks: Chunks, n: nat)
    requires s.proc.Down? && Distinct(Map(KeyOf, w.defs)) && ChunksWhole(chunks)
    requires DataFits(w.read, w.defs, chunks) && n < |Script(w.defs, chunks)|
    ensures RunAll(w.read, s.proc.store.tables, Script(w.defs, chunks)[..n]).Some?
    ensures RunAll(w.read, s.proc.store.tables, Script(w.defs, chunks)[..n + 1]).Some?
    ensures CopiesOn(w, CopyingAt(w, s, chunks, n), CopyingAt(w, s, chunks, n + 1))
  {
    hide RunAll;
    hide RunStmt;
    hide Script;
    var script, before := Script(w.defs, chunks), s.proc.store.tables;
    EveryStatementRuns(w.read, before, w.defs, chunks, n);
    EveryStatementRuns(w.read, before, w.defs, chunks, n + 1);
    assert script[..n + 1] == script[..n] + [script[n]];
    RunNext(w.read, before, script[..n], script[n]);
  }

  /** The whole script, one move a statement. */
  lemma {:induction false} CopyRuns(w: World, s: Sys, chunks: Chunks, n: nat) returns (run: seq<Sys>)
    requires s.proc.Down? && Distinct(Map(KeyOf, w.defs)) && ChunksWhole(chunks)
    requires DataFits(w.read, w.defs, chunks) && n <= |Script(w.defs, chunks)|
    ensures RunAll(w.read, s.proc.store.tables, Script(w.defs, chunks)[..n]).Some?
    ensures |run| == n + 1 && run[n] == CopyingAt(w, s, chunks, n)
    ensures run[0] == s.(proc := Copying(s.proc.store, s.proc.store.tables, chunks, 0))
    ensures forall i | 0 <= i < n :: CopiesOn(w, run[i], run[i + 1])
  {
    hide Script;
    hide CopiesOn;
    if n == 0 {
      NoStatements(w.read, s.proc.store.tables);
      assert Script(w.defs, chunks)[..0] == [];
      run := [CopyingAt(w, s, chunks, 0)];
    } else {
      run := CopyRuns(w, s, chunks, n - 1);
      CopyStatementRuns(w, s, chunks, n - 1);
      run := run + [CopyingAt(w, s, chunks, n)];
    }
  }

  /** The moves at either end of a copy. */
  lemma CopyEnds(w: World, s: Sys, point: U64, chunks: Chunks, done: Sys) returns (ready: Sys, up: Sys)
    requires done.proc.Copying? && done.proc.done == |Script(w.defs, done.proc.chunks)|
    requires done == s.(proc := done.proc) && s.point == point
    ensures FinishesCopy(w, done, ready) && Boots(ready, up)
    ensures up.proc.Up? && up.proc.mem.watermark == point
  {
    hide Lsn.FromPgStr;
    hide Lsn.ToPgStr;
    hide Script;
    Lsn.RoundTrip(point);
    var store := done.proc.store.(meta := Some(Meta(Lsn.ToPgStr(point), CopyText(w))));
    ready := done.(proc := Down(store));
    up := ready.(proc := Up(Restarted(store, point), CopyText(w), None));
  }

  lemma GoodDefs(w: World, chunks: Chunks, s: Sys)
    requires GoodWorld(w) && LegalLog(w.cat, w.start, s.log) && Carries(w, chunks, StateAfter(w.cat, w.start, s.log))
    ensures Distinct(Map(KeyOf, w.defs)) && ChunksWhole(chunks) && DataFits(w.read, w.defs, chunks)
  {
    hide RowsFor;
    hide ClashFree;
    hide Fits;
    LogKeepsShape(w, s.log);
    var db := StateAfter(w.cat, w.start, s.log);
    forall d | d in w.defs
      ensures ClashFree(FullTable(w.read, d, chunks))
    {
      assert d.key in KeysOf(w.defs) && FullTable(w.read, d, chunks) == db[d.key];
    }
  }

  /** The moves of a first run, one after the other. */
  lemma FirstRunMoves(w: World, run: seq<Sys>, point: U64, chunks: Chunks, n: nat) returns (moves: seq<Move>)
    requires |run| == n + 4 && StartsCopy(w, run[0], point, chunks, run[1])
    requires forall i | 1 <= i <= n :: CopiesOn(w, run[i], run[i + 1])
    requires FinishesCopy(w, run[n + 1], run[n + 2]) && Boots(run[n + 2], run[n + 3])
    ensures |moves| == n + 3 && forall i | 0 <= i < |moves| :: Moves(w, run[i], moves[i], run[i + 1])
  {
    hide StartsCopy;
    hide CopiesOn;
    hide FinishesCopy;
    hide Boots;
    moves := [StartCopy(point, chunks)] + seq(n, i => CopyStatement) + [FinishCopy, Boot];
    forall i | 0 <= i < |moves|
      ensures Moves(w, run[i], moves[i], run[i + 1])
    {
      if 1 <= i <= n {
        assert moves[i] == CopyStatement && CopiesOn(w, run[i], run[i + 1]);
      }
    }
  }

  /** From any start a first run can complete: the slot, every statement of the copy, the state
      row, and a replica that starts at the consistent point. */
  lemma FirstRunCompletes(w: World, s: Sys, point: U64, chunks: Chunks) returns (run: seq<Sys>, moves: seq<Move>)
    requires GoodWorld(w) && Begins(w, s) && point <= s.wal && Within(s.log, point)
    requires Carries(w, chunks, StateAfter(w.cat, w.start, s.log))
    ensures Execution(w, run, moves) && run[0] == s && |run| == |Script(w.defs, chunks)| + 4
    ensures run[|run| - 1].proc.Up? && run[|run| - 1].proc.mem.watermark == point
  {
    hide Script;
    hide CopiesOn;
    hide Boots;
    hide FinishesCopy;
    hide Carries;
    hide LegalLog;
    hide GoodWorld;
    var n := |Script(w.defs, chunks)|;
    var first := s.(slot := true, point := point, acks := [], applied := [], spoiled := false);
    GoodDefs(w, chunks, s);
    var copy := CopyRuns(w, first, chunks, n);
    var ready, up := CopyEnds(w, first, point, chunks, copy[n]);
    run := [s] + copy + [ready, up];
    forall i | 1 <= i <= n
      ensures CopiesOn(w, run[i], run[i + 1])
    {
      assert run[i] == copy[i - 1] && run[i + 1] == copy[i] && CopiesOn(w, copy[i - 1], copy[i]);
    }
    moves := FirstRunMoves(w, run, point, chunks, n);
  }
}
