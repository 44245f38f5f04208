/** Runs in which a process that goes on learned what became of its COMMITs: each transaction is
    applied once, and the local tables mirror the upstream. A process that dies in a COMMIT, or
    halts on the error that hides its outcome, needs to learn nothing. */
module ExactlyOnce {
  import opened Wrappers
  import opened PgOutput
  import opened Database
  import opened Fates
  import opened Fingerprint
  import opened Framing
  import opened LocalDb
  import opened Replication
  import opened Upstream
  import opened Protocol
  import opened ProtocolProof
  import opened Endings
  import Lsn

  /** The reply to a COMMIT that took effect is not lost in an error after which the process
      connects again. */
  predicate Truthful(mem: State, e: Event) {
    MsgIn(e).Some? && Applies(mem, MsgIn(e).value) && ApplyFate(mem, e.answers).ReplyLost? ==>
      !Passing(ApplyFate(mem, e.answers).error)
  }

  ghost predicate TruthfulMove(s: Sys, m: Move) { m.Reads? && s.proc.Up? ==> Truthful(s.proc.mem, m.e) }

  predicate Aligned(mem: State) { mem.store.meta.Some? && mem.watermark == Mark(mem.store) }

  /** From the copy on: nothing was applied twice, and memory is not behind the store. */
  ghost predicate UpToDate(s: Sys) {
    && (Disk(s).meta.Some? || s.proc.Copying? ==> Distinct(s.applied))
    && (s.proc.Up? ==> Aligned(s.proc.mem))
  }

  // ---- One event ----

  /** Memory and store agree, or the process is about to halt. */
  predicate Settled(r: (State, LoopResult)) {
    Aligned(r.0) || (r.1.Errored? && !Passing(r.1.error))
  }

  lemma CommitSettles(w: World, s: Sys, mem: State, c: Conn, m: Msg, a: Answers)
    requires m.Commit? && Committing(w, s, mem, c, m.endLsn) && CommitPossible(mem, m.endLsn, a.apply)
    requires Aligned(mem)
    requires Applies(mem, m) && ApplyFate(mem, a).ReplyLost? ==> !Passing(ApplyFate(mem, a).error)
    ensures Settled(OnMsg(mem, m, a))
  {
    hide OnMsg;
    hide MemInv;
    hide ApplyFate;
    hide CommitPossible;
    hide Mark;
    hide Applied;
    hide StoreOk;
    ConnInTransaction(w, s, mem, c);
    if !Applies(mem, m) {
      IdleCommitKeeps(w, s, mem, c, m, a);
    } else {
      CommitLeaves(mem, m, a);
      if ApplyFate(mem, a).Runs? {
        AppliedStoreOk(w, s, mem, c, m, a);
      }
    }
  }

  lemma ConnInTransaction(w: World, s: Sys, mem: State, c: Conn)
    requires ConnOk(w, s, mem, c) && c.sent.Some?
    ensures mem.vars.txn.Some?
  {
  }

  lemma MsgSettles(w: World, s: Sys, mem: State, c: Conn, m: Msg, a: Answers)
    requires GoodWorld(w) && LogOk(w, s) && MemInv(w, s, mem) && ConnOk(w, s, mem, c)
    requires OffersMsg(w, s, mem, c, m, a) && (m.Commit? ==> CommitPossible(mem, m.endLsn, a.apply))
    requires Aligned(mem)
    requires Applies(mem, m) && ApplyFate(mem, a).ReplyLost? ==> !Passing(ApplyFate(mem, a).error)
    ensures Settled(OnMsg(mem, m, a))
  {
    hide GoodWorld;
    hide LogOk;
    hide MemInv;
    hide ConnOk;
    hide OnRelation;
    hide OnCommit;
    hide OnTruncate;
    hide Replication.OnRow;
    hide OffersChange;
    hide CommitPossible;
    hide Mark;
    hide ApplyFate;
    match m {
      case Relation(_, _, _, _, _) => RelationKeeps(w, s, mem, c, m, a);
      case Commit(_, _, _) => CommitSettles(w, s, mem, c, m, a);
      case Message(prefix, _) =>
        if prefix == DDL_SIGNAL_PREFIX {
          NothingNewKeeps(mem, a);
        }
      case Begin(_, _, _) =>
      case Other =>
      case _ => ChangeTouchesTxn(mem, m, a);
    }
  }

  lemma EventSettles(w: World, s: Sys, mem: State, c: Conn, e: Event)
    requires GoodWorld(w) && LogOk(w, s) && MemInv(w, s, mem) && ConnOk(w, s, mem, c)
    requires Offers(w, s, mem, c, e) && Possible(mem, e) && Truthful(mem, e)
    requires Aligned(mem)
    ensures Settled(Step(mem, e))
  {
    hide GoodWorld;
    hide LogOk;
    hide MemInv;
    hide ConnOk;
    hide OnMsg;
    hide OffersMsg;
    hide OffersKeepalive;
    hide DecodeMsg;
    hide CommitPossible;
    hide Mark;
    hide ApplyFate;
    if e.Received? && e.msg.XLogData? && DecodeMsg(e.msg.data).Success? {
      MsgSettles(w, s, mem, c, DecodeMsg(e.msg.data).value, e.answers);
    }
  }

  /** What takes effect ends after everything applied before. */
  lemma NotedOnce(w: World, s: Sys, mem: State, e: Event)
    requires LogOk(w, s) && MemInv(w, s, mem) && Aligned(mem) && Distinct(s.applied)
    ensures Distinct(Noted(s, mem, e).applied)
  {
    hide DecodeMsg;
    hide OnMsg;
    hide ApplyFate;
    hide Mark;
    hide LegalLog;
    hide Safe;
    if MsgIn(e).Some? && AppliedEnd(mem, MsgIn(e).value, e.answers) != [] {
      var end := MsgIn(e).value.endLsn;
      forall i | 0 <= i < |s.applied|
        ensures s.applied[i] < end
      {
        assert s.applied[i] in s.applied;
        var k := AppliedIsEffective(s.log, s.point, Mark(mem.store), s.applied[i]);
      }
    }
  }

  lemma ResumeUpToDate(s: Sys, r: (State, LoopResult), c: Conn)
    requires s.proc.Up? && Settled(r) && Distinct(s.applied)
    ensures UpToDate(Resume(s, r, c))
  {
    hide Mark;
    hide Distinct;
  }

  lemma ReadsUpToDate(w: World, s: Sys, e: Event, t: Sys)
    requires GoodWorld(w) && Inv(w, s) && UpToDate(s) && ReadsEvent(w, s, e, t) && Truthful(s.proc.mem, e)
    ensures UpToDate(t)
  {
    hide MemInv;
    hide ConnOk;
    hide Step;
    hide Possible;
    hide Offers;
    hide GoodWorld;
    hide Truthful;
    hide Mark;
    hide Resume;
    hide Settled;
    hide AppliedEnd;
    hide OnMsg;
    InvToMem(w, s);
    EventSettles(w, s, s.proc.mem, s.proc.conn.value, e);
    NotedOnce(w, s, s.proc.mem, e);
    ResumeUpToDate(Noted(s, s.proc.mem, e), Step(s.proc.mem, e), AfterEvent(s.proc.conn.value, e));
  }

  // ---- Any run ----

  lemma ReadsHappen(w: World, s: Sys, e: Event, t: Sys)
    requires ReadsEvent(w, s, e, t)
    ensures s.proc.Up?
  {
  }

  lemma BootUpToDate(w: World, s: Sys, t: Sys)
    requires Inv(w, s) && Boots(s, t) && UpToDate(s)
    ensures UpToDate(t)
  {
    hide Mark;
    hide Boots;
    RowFromStore(w, s, Disk(s));
    BootsAtMark(w, s, t);
    BootsSame(s, t);
  }

  lemma BootsSame(s: Sys, t: Sys)
    requires Boots(s, t)
    ensures Disk(s).meta.Some? && t.applied == s.applied
  {
    hide Lsn.FromPgStr;
  }

  lemma ConnectUpToDate(s: Sys, n: nat, status: Outcome, t: Sys)
    requires Connects(s, n, status, t) && UpToDate(s)
    ensures UpToDate(t)
  {
    hide Mark;
    hide MayResumeAt;
    hide Expected;
    hide LinesOf;
  }

  /** The moves that neither start a process nor reach it. */
  lemma OthersUpToDate(w: World, s: Sys, m: Move, t: Sys)
    requires Inv(w, s) && Moves(w, s, m, t) && UpToDate(s) && !m.Reads? && !m.Boot? && !m.Connect?
    ensures UpToDate(t)
  {
    hide Mark;
    hide StoreOk;
    hide AcksOk;
    hide ProcOk;
    hide LogOk;
    hide LegalLog;
    hide Carries;
    hide RunStmt;
  }

  lemma MoveUpToDate(w: World, s: Sys, m: Move, t: Sys)
    requires GoodWorld(w) && Inv(w, s) && Moves(w, s, m, t) && UpToDate(s) && TruthfulMove(s, m)
    ensures UpToDate(t)
  {
    hide GoodWorld;
    hide Inv;
    hide UpToDate;
    hide Truthful;
    hide Mark;
    hide ReadsEvent;
    hide Boots;
    hide Connects;
    match m {
      case Reads(e) =>
        ReadsHappen(w, s, e, t);
        ReadsUpToDate(w, s, e, t);
      case Boot => BootUpToDate(w, s, t);
      case Connect(n, status) => ConnectUpToDate(s, n, status, t);
      case _ => OthersUpToDate(w, s, m, t);
    }
  }

  lemma {:induction false} TruthfulRunsAreUpToDate(w: World, run: seq<Sys>, moves: seq<Move>, i: nat)
    requires Execution(w, run, moves) && i < |run|
    requires forall j | 0 <= j < i :: TruthfulMove(run[j], moves[j])
    ensures UpToDate(run[i])
  {
    hide Moves;
    hide GoodWorld;
    hide TruthfulMove;
    hide LegalLog;
    if i == 0 {
    } else {
      TruthfulRunsAreUpToDate(w, run, moves, i - 1);
      EveryRunKeeps(w, run, moves, i - 1);
      MoveUpToDate(w, run[i - 1], moves[i - 1], run[i]);
    }
  }

  /** Whenever a first run has completed, since the slot was created each transaction with
      changes up to the persisted watermark was applied exactly once, in commit order, and the
      published tables are the upstream's after exactly the transactions up to there. */
  lemma EachAppliedOnce(w: World, run: seq<Sys>, moves: seq<Move>, i: nat)
    requires Execution(w, run, moves) && i < |run| && Disk(run[i]).meta.Some?
    requires forall j | 0 <= j < i :: TruthfulMove(run[j], moves[j])
    ensures var s, x := run[i], Mark(Disk(run[i]));
            && Lsn.FromPgStr(Disk(s).meta.value.watermark) == Success(x)
            && s.applied == EffectiveEnds(s.log, s.point, x) && Ascending(s.applied)
            && LegalLog(w.cat, w.start, s.log[..Upto(s.log, x)])
            && Embeds(Disk(s).tables, Through(w, s.log, x))
  {
    hide Moves;
    hide GoodWorld;
    hide TruthfulMove;
    hide Mark;
    hide Lsn.FromPgStr;
    hide EffectiveEnds;
    hide Embeds;
    TruthfulRunsAreUpToDate(w, run, moves, i);
    ReplicaMirrorsUpstream(w, run, moves, i);
    OnceEach(run[i].applied);
  }
}
