/** The replica thread of `crates/pglite/src/replica/mod.rs`: the loops over its fields.
    Each method does what the `Replication` functions say. */
module ReplicaThread {
  import opened Wrappers
  import opened PgOutput
  import opened SqlText
  import opened RowChanges
  import opened Database
  import opened Fingerprint
  import opened Fates
  import opened LocalDb
  import opened SchemaDelta
  import opened Replication
  import opened ExpectedLines
  import PgOutputCursor

  // ---- One transaction on the local server ----

  /** `work` is what the open transaction sees; None before BEGIN, after an error and after the
      session is gone. */
  class LocalTransaction {
    ghost var committed: Store
    ghost var work: Option<Store>
    var replies: seq<Reply>
    var done: bool

    constructor (ghost store: Store, replies: seq<Reply>)
      ensures committed == store && work == None && this.replies == replies && !done
    {
      committed, work, this.replies, done := store, None, replies, false;
    }

    method NextReply() returns (r: Reply)
      modifies this`replies
      ensures r == ReplyAt(old(replies), 0) && replies == old(replies)[if old(replies) == [] then 0 else 1..]
    {
      r := if replies == [] then Done else replies[0];
      replies := if replies == [] then [] else replies[1..];
    }

    method Begin() returns (o: Outcome)
      modifies this`replies, this`work
      ensures o == ReplyResult(ReplyAt(old(replies), 0))
      ensures replies == old(replies)[if old(replies) == [] then 0 else 1..]
      ensures work == if o.Pass? then Some(committed) else None
    {
      var r := NextReply();
      work := if r.Done? then Some(committed) else None;
      return ReplyResult(r);
    }

    method Exec(text: string) returns (o: Outcome)
      requires work.Some? && (ReplyAt(replies, 0).Done? ==> ExecText(work.value.tables, text).Some?)
      modifies this`replies, this`work
      ensures o == ReplyResult(ReplyAt(old(replies), 0))
      ensures replies == old(replies)[if old(replies) == [] then 0 else 1..]
      ensures o.Fail? ==> work == None
      ensures o.Pass? ==> work == Some(old(work).value.(tables := ExecText(old(work).value.tables, text).value))
    {
      var r := NextReply();
      work := if r.Done? then Some(work.value.(tables := ExecText(work.value.tables, text).value)) else None;
      return ReplyResult(r);
    }

    /** UPDATE of the state row. */
    method SetWatermark(end: U64) returns (o: Outcome)
      requires work.Some?
      modifies this`replies, this`work
      ensures o == ReplyResult(ReplyAt(old(replies), 0))
      ensures replies == old(replies)[if old(replies) == [] then 0 else 1..]
      ensures work == if o.Pass? then Some(WithWatermark(old(work).value, end)) else None
    {
      var r := NextReply();
      work := if r.Done? then Some(WithWatermark(work.value, end)) else None;
      return ReplyResult(r);
    }

    method Commit() returns (o: Outcome)
      requires work.Some?
      modifies this
      ensures o == ReplyResult(ReplyAt(old(replies), 0)) && done && work == None
      ensures committed == if ReplyAt(old(replies), 0).Refused? ||
                              (ReplyAt(old(replies), 0).Broken? && !ReplyAt(old(replies), 0).effect)
                           then old(committed) else old(work).value
    {
      done := true;
      var r := NextReply();
      if r.Done? || (r.Broken? && r.effect) {
        committed := work.value;
      }
      work := None;
      return ReplyResult(r);
    }

    /** ROLLBACK, unless COMMIT was sent. */
    method Drop()
      modifies this`work
      ensures done ==> work == old(work)
      ensures !done ==> work == None
    {
      if !done {
        work := None;
      }
    }
  }

  /** What the transaction sees after the first statements. */
  ghost function Worked(start: Store, stmts: seq<string>, i: nat): Option<Store>
    requires i <= |stmts|
  {
    match RunScript(start.tables, stmts[..i])
    case None => None
    case Some(tables) => Some(start.(tables := tables))
  }

  /** The replies left after the first `k`. */
  ghost predicate Rest(all: seq<Reply>, k: nat, left: seq<Reply>) { left == if k <= |all| then all[k..] else [] }

  lemma WorkedNext(start: Store, stmts: seq<string>, i: nat)
    requires i < |stmts| && Worked(start, stmts, i).Some?
    ensures var before := Worked(start, stmts, i).value;
            && (RunScript(start.tables, stmts[..i + 1]).Some? ==> ExecText(before.tables, stmts[i]).Some?)
            && (ExecText(before.tables, stmts[i]).Some? ==>
                  Worked(start, stmts, i + 1) == Some(before.(tables := ExecText(before.tables, stmts[i]).value)))
  {
    hide ExecText;
    assert stmts[..i + 1] == stmts[..i] + [stmts[i]];
    RunScriptSnoc(start.tables, stmts[..i], stmts[i]);
  }

  lemma WorkedAll(start: Store, stmts: seq<string>, end: U64)
    requires Worked(start, stmts, |stmts|).Some?
    ensures Applied(start, stmts, end) == WithWatermark(Worked(start, stmts, |stmts|).value, end)
  {
    hide RunScript;
    assert stmts[..|stmts|] == stmts;
  }

  lemma NoScript(start: Store, stmts: seq<string>)
    ensures Worked(start, stmts, 0) == Some(start)
  {
    assert stmts[..0] == [];
  }

  method RunTransaction(tx: LocalTransaction, stmts: seq<string>, end: U64) returns (o: Outcome)
    requires !tx.done && ScriptPossible(tx.committed.tables, stmts, tx.replies)
    modifies tx
    ensures o == FateResult(FateOf(|stmts| + 2, old(tx.replies)))
    ensures tx.committed ==
            AfterFate(old(tx.committed), Applied(old(tx.committed), stmts, end), FateOf(|stmts| + 2, old(tx.replies)))
    ensures tx.work == None
  {
    hide RunScript;
    hide ExecText;
    hide FateOf;
    hide Applied;
    ghost var all, start, n := tx.replies, tx.committed, |stmts| + 2;
    o := tx.Begin();
    if o.Fail? {
      FailsBefore(0, n, all);
      tx.Drop();
      return;
    }
    NoScript(start, stmts);
    for i := 0 to |stmts|
      invariant !tx.done && tx.committed == start && AllDone(all, i + 1) && Rest(all, i + 1, tx.replies)
      invariant tx.work == Worked(start, stmts, i)
    {
      WorkedNext(start, stmts, i);
      o := tx.Exec(stmts[i]);
      if o.Fail? {
        FailsBefore(i + 1, n, all);
        tx.Drop();
        return;
      }
      assert AllDone(all, i + 2);
    }
    WorkedAll(start, stmts, end);
    o := tx.SetWatermark(end);
    if o.Fail? {
      FailsBefore(|stmts| + 1, n, all);
      tx.Drop();
      return;
    }
    assert AllDone(all, n);
    CommitDecides(n, all);
    o := tx.Commit();
    tx.Drop();
  }

  // ---- Added columns ----

  lemma AddNone(tables: Db, key: Target)
    ensures AddColumns(tables, key, []) == tables
  {
  }

  lemma AddOneMore(tables: Db, key: Target, cols: seq<Column>, c: Column)
    ensures AddColumns(tables, key, cols + [c]) == AddColumns(AddColumns(tables, key, cols), key, [c])
  {
    assert (cols + [c])[..|cols|] == cols && [c][..0] == [];
    if key in tables {
      var before := AddMissing(tables[key], cols, {});
      AddOne(before, c);
      assert tables[key := before][key := AddColumn(before, c)] == tables[key := AddColumn(before, c)];
    }
  }

  lemma AddOne(table: Table, c: Column)
    ensures AddMissing(table, [c], {}) == AddColumn(table, c)
  {
  }

  class Replica {
    var watermark: U64
    var ackPos: U64
    var sent: seq<U64>
    var published: seq<CommittedTransaction>
    ghost var store: Store

    ghost function At(vars: Locals): State
      reads this
    {
      State(watermark, ackPos, vars, store, sent, published)
    }

    constructor (start: U64, ghost store: Store)
      ensures watermark == ackPos == start && sent == [] && published == [] && this.store == store
    {
      watermark, ackPos, sent, published := start, start, [], [];
      this.store := store;
    }

    method Status(answer: Outcome) returns (o: Outcome)
      modifies this`sent
      ensures o == answer && sent == old(sent) + [Max(watermark, ackPos)]
    {
      sent := sent + [Max(watermark, ackPos)];
      return answer;
    }

    /** BEGIN, the statements, the watermark and COMMIT, up to the first that fails: all of it
        takes effect or nothing, as the reply to COMMIT decides. */
    method Apply(stmts: seq<string>, end: U64, replies: seq<Reply>) returns (o: Outcome)
      requires ScriptPossible(store.tables, stmts, replies)
      modifies this`store
      ensures o == FateResult(FateOf(|stmts| + 2, replies))
      ensures store == AfterFate(old(store), Applied(old(store), stmts, end), FateOf(|stmts| + 2, replies))
    {
      var tx := new LocalTransaction(store, replies);
      o := RunTransaction(tx, stmts, end);
      store := tx.committed;
    }

    method HandleRow(vars: Locals, relId: U32, m: Msg) returns (next: Locals, r: LoopResult)
      requires m.Insert? || m.Update? || m.Delete?
      ensures (At(next), r) == OnRow(At(vars), relId, m)
    {
      next := vars;
      if relId !in vars.rels || vars.txn.None? {
        return next, Errored(Protocol);
      }
      var rel, buf := vars.rels[relId], vars.txn.value;
      var built: Result<(string, RowChange)>;
      if m.Insert? {
        built := InsertSql(rel, m.after);
      } else if m.Update? {
        built := UpdateSql(rel, m.key, m.before, m.after);
      } else {
        built := DeleteSql(rel, m.key, m.before);
      }
      if built.Failure? {
        return next, Errored(built.error);
      }
      buf := buf.(stmts := buf.stmts + [built.value.0]);
      buf := buf.(changes := buf.changes + [built.value.1]);
      next := vars.(txn := Some(buf));
      return next, Running;
    }

    method HandleTruncate(vars: Locals, ids: seq<U32>) returns (next: Locals, r: LoopResult)
      ensures (At(next), r) == OnTruncate(At(vars), ids)
    {
      next := vars;
      if vars.txn.None? {
        return next, Errored(Protocol);
      }
      var buf := vars.txn.value;
      var targets, names: seq<string> := [], [];
      for i := 0 to |ids|
        invariant forall j | 0 <= j < i :: ids[j] in vars.rels
        invariant targets == seq(i, j requires 0 <= j < i => TargetOf(vars.rels[ids[j]]))
        invariant names == Map(PrintTarget, targets)
        invariant buf == vars.txn.value.(changes := vars.txn.value.changes + Map(TruncateOf, targets))
      {
        if ids[i] !in vars.rels {
          return next, Errored(Protocol);
        }
        var target := TargetOf(vars.rels[ids[i]]);
        targets := targets + [target];
        names := names + [PrintTarget(target)];
        buf := buf.(changes := buf.changes + [RowTruncate(target)]);
      }
      buf := buf.(stmts := buf.stmts + ["TRUNCATE " + Join(names, ", ")]);
      next := vars.(txn := Some(buf));
      return next, Running;
    }

    method HandleCommit(vars: Locals, c: U64, end: U64, ts: I64, a: Answers) returns (next: Locals, r: LoopResult)
      requires CommitPossible(At(vars), end, a.apply)
      modifies this
      ensures (At(next), r) == OnCommit(old(At(vars)), c, end, ts, ApplyFate(old(At(vars)), a))
    {
      next := vars;
      if vars.txn.None? {
        return next, Errored(Protocol);
      }
      var buf := vars.txn.value;
      next := vars.(txn := None);
      if end <= watermark {
        return next, Running;
      }
      if buf.stmts == [] {
        ackPos := Max(ackPos, end);
        return next, Running;
      }
      var applied := Apply(buf.stmts, end, a.apply);
      if applied.Fail? {
        return next, Errored(applied.error);
      }
      watermark := end;
      ackPos := Max(ackPos, end);
      if buf.changes != [] {
        published := published + [CommitOf(buf, c, end, ts)];
      } else {
        assert published + [] == published;
      }
      return next, Running;
    }

    method AddedColumns(key: Target, added: seq<Column>, answer: AlterAnswer) returns (o: Outcome)
      modifies this`store
      ensures o == (if added == [] then Pass else AlterError(answer))
      ensures store == old(store).(
                tables := AddColumns(old(store).tables, key, added[..AlteredCount(answer, |added|)]))
    {
      var n := AlteredCount(answer, |added|);
      ghost var before := store;
      AddNone(before.tables, key);
      for i := 0 to n
        invariant store == before.(tables := AddColumns(before.tables, key, added[..i]))
      {
        AddOneMore(before.tables, key, added[..i], added[i]);
        assert added[..i + 1] == added[..i] + [added[i]];
        store := store.(tables := AddColumns(store.tables, key, [added[i]]));
      }
      return if added == [] then Pass else AlterError(answer);
    }

    method HandleRelation(vars: Locals, m: Msg, a: Answers) returns (next: Locals, r: LoopResult)
      requires m.Relation? && Keyed(vars.expected)
      modifies this`store
      ensures (At(next), r) == OnRelation(old(At(vars)), m, a) && Keyed(next.expected)
    {
      hide Line;
      hide LineCols;
      hide TextOf;
      hide Saved;
      hide AddColumns;
      next := vars;
      var key, cols := Target(m.namespace, m.name), Map(ColumnOf, m.columns);
      var line := FingerprintLine(m.namespace, m.name, cols);
      if key !in vars.expected {
        return next, Errored(ReplicaHalted);
      }
      if vars.expected[key] != line {
        var change := ClassifySchemaChange(vars.expected[key], cols);
        if change.Incompatible? {
          return next, Errored(ReplicaHalted);
        }
        var added := AddedColumns(key, cols[change.oldCount..], a.alter);
        if added.Fail? {
          return next, Errored(added.error);
        }
        NewLineIsKeyed(vars.expected, key, cols);
        next := vars.(expected := vars.expected[key := line]);
        store := AfterFate(store, Saved(store, TextOf(next.expected)), a.save);
        if !a.save.Runs? {
          return next, ResultOf(FateResult(a.save));
        }
      }
      next := next.(rels := next.rels[m.relId := Rel(m.namespace, m.name, m.columns)]);
      return next, Running;
    }

    method HandleDdl(vars: Locals, a: Answers) returns (next: Locals, r: LoopResult)
      requires DdlPossible(At(vars), a) && Keyed(vars.expected)
      modifies this`store
      ensures (At(next), r) == OnDdl(old(At(vars)), a) && Keyed(next.expected)
    {
      hide WholeDelta;
      hide SortedLines;
      hide LinesOf;
      hide Expected;
      hide OldOf;
      hide StillPublished;
      next := vars;
      if a.resync.ResyncFailed? {
        store := store.(tables := a.resync.tables);
        return next, Errored(a.resync.error);
      }
      var defs := a.resync.defs;
      var oldLines := OldLines(vars.expected);
      SortedAreValues(vars.expected);
      OldOfBag(oldLines, SortedLines(vars.expected), vars.expected);
      var db := new Server((t: Target, line: Bytes) => map[], store.tables, a.resync.names, []);
      var result := ApplySchemaDelta(db, oldLines, defs);
      store := store.(tables := db.tables);
      var text := FingerprintText(result.value);
      if multiset(LinesOf(text)) == multiset(oldLines) {
        return next, ResultOf(a.security);
      }
      store := AfterFate(store, Saved(store, text), a.save);
      if !a.save.Runs? {
        return next, ResultOf(FateResult(a.save));
      }
      var expected := BuildExpected(text);
      ExpectedIsKeyed(LinesOf(text));
      next := vars.(expected := expected, rels := StillPublished(vars.rels, expected));
      return next, ResultOf(a.security);
    }

    method HandleMsg(vars: Locals, m: Msg, a: Answers) returns (next: Locals, r: LoopResult)
      requires m.Commit? ==> CommitPossible(At(vars), m.endLsn, a.apply)
      requires m.Message? && m.prefix == DDL_SIGNAL_PREFIX ==> DdlPossible(At(vars), a)
      requires Keyed(vars.expected)
      modifies this
      ensures (At(next), r) == OnMsg(old(At(vars)), m, a) && Keyed(next.expected)
    {
      next, r := vars, Running;
      match m {
        case Begin(_, ts, xid) => next := vars.(txn := Some(TxnBuf(xid, ts, [], [])));
        case Relation(_, _, _, _, _) => next, r := HandleRelation(vars, m, a);
        case Insert(id, _) => next, r := HandleRow(vars, id, m);
        case Update(id, _, _, _) => next, r := HandleRow(vars, id, m);
        case Delete(id, _, _) => next, r := HandleRow(vars, id, m);
        case Truncate(ids) => next, r := HandleTruncate(vars, ids);
        case Commit(c, end, ts) => next, r := HandleCommit(vars, c, end, ts, a);
        case Message(prefix, _) =>
          if prefix == DDL_SIGNAL_PREFIX {
            next, r := HandleDdl(vars, a);
          }
        case Other =>
      }
    }

    method HandleEvent(vars: Locals, e: Event) returns (next: Locals, r: LoopResult)
      requires Possible(At(vars), e) && Keyed(vars.expected)
      modifies this
      ensures (At(next), r) == Step(old(At(vars)), e) && Keyed(next.expected)
    {
      next, r := vars, Running;
      match e {
        case Stop => r := Stopped;
        case StatusDue(status) =>
          var o := Status(status);
          r := ResultOf(o);
        case RolePoll(security) => r := ResultOf(security);
        case ReadTimeout =>
        case ReadFailed(error) => r := Errored(MapInvalidated(error));
        case Received(Keepalive(walEnd, replyRequested), a) =>
          if vars.txn.None? {
            ackPos := Max(ackPos, walEnd);
          }
          if replyRequested {
            var o := Status(a.status);
            r := ResultOf(o);
          }
        case Received(CopyDone, _) => r := Errored(Upstream);
        case Received(XLogData(data), a) =>
          var decoded := PgOutputCursor.Decode(data);
          if decoded.Failure? {
            return vars, Errored(decoded.error);
          }
          next, r := HandleMsg(vars, decoded.value, a);
      }
    }

    /** One connection, from the first status message on. The variables of the loop live
        as long as the connection. */
    method StreamLoop(fingerprint: string, at: Attempt, ghost before: Locals)
      returns (r: LoopResult, ghost vars: Locals)
      requires at.Streamed? && StreamPossible(Fresh(At(before), fingerprint), at)
      modifies this
      ensures (At(vars), r) == Stream(old(Fresh(At(before), fingerprint)), at)
    {
      var expected := BuildExpected(fingerprint);
      ExpectedIsKeyed(LinesOf(fingerprint));
      var locals := Locals(expected, map[], None);
      vars := locals;
      if at.asked.Fail? {
        return Errored(at.asked.error), vars;
      }
      if at.started.Fail? {
        return Errored(MapInvalidated(at.started.error)), vars;
      }
      var status := Status(at.status);
      r := ResultOf(status);
      if !r.Running? {
        return r, vars;
      }
      ghost var start := At(locals);
      for i := 0 to |at.events|
        invariant r.Running? && AllPossible(At(locals), at.events[i..]) && Keyed(locals.expected)
        invariant Steps(start, at.events) == Steps(At(locals), at.events[i..])
      {
        assert at.events[i..][1..] == at.events[i + 1..];
        locals, r := HandleEvent(locals, at.events[i]);
        if !r.Running? {
          return r, locals;
        }
      }
      vars := locals;
    }

    method Run(fingerprint: string, attempts: seq<Attempt>, ghost before: Locals)
      returns (end: RunEnd, ghost vars: Locals)
      requires AllStreamsPossible(At(before), fingerprint, attempts)
      modifies this
      ensures (At(vars), end) == Turns(old(At(before)), fingerprint, attempts)
    {
      vars, end := before, Retrying;
      ghost var start := At(vars);
      for i := 0 to |attempts|
        invariant end.Retrying? && AllStreamsPossible(At(vars), fingerprint, attempts[i..])
        invariant Turns(start, fingerprint, attempts) == Turns(At(vars), fingerprint, attempts[i..])
      {
        var at := attempts[i];
        assert attempts[i..][1..] == attempts[i + 1..];
        end, vars := OneTurn(fingerprint, at, vars);
        if !end.Retrying? {
          return end, vars;
        }
      }
    }

    method OneTurn(fingerprint: string, at: Attempt, ghost before: Locals)
      returns (end: RunEnd, ghost vars: Locals)
      requires StreamPossible(Fresh(At(before), fingerprint), at)
      modifies this
      ensures (At(vars), end) == Turn(old(At(before)), fingerprint, at)
    {
      vars := before;
      if at.StopAsked? {
        return Finished, vars;
      }
      if at.Refused? {
        return if IsFatal(at.error) then Halted(at.error) else Retrying, vars;
      }
      var r;
      r, vars := StreamLoop(fingerprint, at, before);
      match r {
        case Running => return Streaming, vars;
        case Stopped => return Finished, vars;
        case Errored(e) =>
          if IsFatal(e) {
            return Halted(e), vars;
          }
          ackPos := watermark;
          return Retrying, vars;
      }
    }
  }
}
