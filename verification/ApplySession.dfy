/** The transaction of `apply` on a pooled connection: what the store becomes in every run of
    the connection, and what the replies to its own commands tell about that. */
module ApplySession {
  import opened Wrappers
  import opened Database
  import opened Fates
  import opened Replication
  import opened Session
  import opened SessionProof
  import PgOutput

  // ---- What the client hears ----

  /** The replies to the commands of the lease in progress, and whether its client asked for
      ROLLBACK. Which error a failure reports is left open. */
  datatype Watch = Watch(heard: seq<Reply>, rolled: bool)

  function ReplyTo(answer: Answer): Reply {
    match answer
    case Ran(ok) => if ok then Reply.Done else Reply.Refused(Database(""))
    case Broke(effect, _) => Broken(Io, effect)
  }

  predicate Awaits(client: Client, c: Cmd) { client.Leased? && client.waiting && client.lease == c.lease }

  function Hear(w: Watch, r: Reply): Watch { w.(heard := w.heard + [r]) }

  /** A worker that dies, or is dead, answers every command with a broken connection. */
  function Watched(w: Watch, s: Sys, m: Move): Watch {
    match m
    case Checkout => Watch([], false)
    case Sends => if s.alive then w else Hear(w, Broken(Io, false))
    case AsksRollback => w.(rolled := true)
    case Works(answer) =>
      if s.queue == [] then w
      else if Awaits(s.client, s.queue[0]) then Hear(w, ReplyTo(answer))
      else if answer.Broke? && !answer.reconnected && s.client.Leased? && s.client.waiting then
        Hear(w, Broken(Io, false))
      else w
    case _ => w
  }

  function WatchAt(run: seq<Sys>, moves: seq<Move>, i: nat): Watch
    requires i < |run| == |moves| + 1
  {
    if i == 0 then Watch([], false) else Watched(WatchAt(run, moves, i - 1), run[i - 1], moves[i - 1])
  }

  // ---- The invariant ----

  function LastOf(w: Watch): Reply { if w.heard == [] then Done else w.heard[|w.heard| - 1] }

  predicate InEffect(r: Reply) { r.Done? || (r.Broken? && r.effect) }

  /** Up to here the lease in progress heard one reply for each command, all Done but perhaps
      the last. */
  ghost predicate HeardOk(sizes: Sizes, s: Sys, w: Watch) {
    s.client.Leased? && !w.rolled ==>
      var c, n := s.client, |w.heard|;
      && c.asked == n + (if c.waiting then 1 else 0)
      && c.asked <= sizes(c.lease) + 2 && (c.done <==> c.asked == sizes(c.lease) + 2)
      && (forall j | 0 <= j < n && (c.failed ==> j < n - 1) :: w.heard[j].Done?)
      && (c.failed ==> n > 0 && !LastOf(w).Done? && !c.waiting)
      && (c.waiting ==> s.queue != [] && s.queue[|s.queue| - 1].op == OpAt(sizes, c.lease, n))
  }

  /** The lease took effect exactly when its COMMIT was answered and took effect; `told` is what
      the replies say for sure. */
  ghost predicate EffectOk(s: Sys, w: Watch) {
    s.client.Leased? && !w.rolled ==>
      var c := s.client;
      && (InHistory(s.history, c.lease) <==> c.done && !c.waiting && InEffect(LastOf(w)))
      && (c.lease in s.told <==> !c.waiting && ((c.done && LastOf(w).Done?) || LastOf(w).Refused?))
      && (c.lease in s.told ==> (s.told[c.lease] <==> LastOf(w).Done?))
  }

  /** Leases not handed out yet have left no trace. */
  ghost predicate Unseen(s: Sys) {
    && (forall l | l in s.told :: l < s.next) && (forall b | b in s.history :: b.lease < s.next)
    && (forall c | c in s.queue :: c.lease < s.next) && (s.client.Leased? ==> s.client.lease + 1 == s.next)
  }

  ghost predicate WatchOk(sizes: Sizes, s: Sys, w: Watch) { HeardOk(sizes, s, w) && EffectOk(s, w) && Unseen(s) }

  lemma CheckoutWatched(sizes: Sizes, s: Sys, w: Watch, t: Sys)
    requires WatchOk(sizes, s, w) && Moves(sizes, s, Checkout, t)
    ensures WatchOk(sizes, t, Watched(w, s, Checkout))
  {
  }

  lemma SendsWatched(sizes: Sizes, s: Sys, w: Watch, t: Sys)
    requires WatchOk(sizes, s, w) && Moves(sizes, s, Sends, t)
    ensures WatchOk(sizes, t, Watched(w, s, Sends))
  {
  }

  lemma RolledWatched(sizes: Sizes, s: Sys, w: Watch, t: Sys)
    requires WatchOk(sizes, s, w) && Moves(sizes, s, AsksRollback, t)
    ensures WatchOk(sizes, t, Watched(w, s, AsksRollback))
  {
  }

  lemma FreeWatched(sizes: Sizes, s: Sys, w: Watch, m: Move, t: Sys)
    requires WatchOk(sizes, s, w) && (m.Drops? || m.Fires?) && Moves(sizes, s, m, t)
    ensures WatchOk(sizes, t, Watched(w, s, m))
  {
  }

  // ---- The worker's answers ----

  /** The outcome of the first command: `took` says whether it took effect. */
  function Took(answer: Answer): bool { if answer.Ran? then answer.ok else answer.effect }

  /** A batch is recorded exactly for a COMMIT that took effect. */
  lemma WorkRecords(sizes: Sizes, s: Sys, answer: Answer)
    requires Inv(sizes, s) && s.alive && s.queue != []
    ensures var c, t := s.queue[0], Worked(s, answer);
            && (forall l :: InHistory(t.history, l) <==>
                            InHistory(s.history, l) || (l == c.lease && c.op.Commit? && Took(answer)))
            && forall b | b in t.history :: b in s.history || b.lease == c.lease
  {
    hide Whole;
    hide ToldOk;
    hide QueueOwners;
    hide LastAsked;
    hide ClientFits;
    hide FollowAll;
    hide InHistory;
    var c := s.queue[0];
    var b := HeadFits(sizes, s);
    ServedSession(sizes, s, b, Took(answer));
    var batch := if Took(answer) || answer.Ran? then Serve(s.session, c, Took(answer)).1 else None;
    forall l
      ensures InHistory(Worked(s, answer).history, l) <==>
              InHistory(s.history, l) || (l == c.lease && c.op.Commit? && Took(answer))
    {
      RecordedHas(s.history, batch, l);
    }
  }

  /** Only the last command in the queue can be the client's own. */
  lemma OwnIsLast(s: Sys)
    requires QueueOwners(s) && s.queue != [] && s.client.Leased?
    ensures Awaits(s.client, s.queue[0]) ==> |s.queue| == 1
    ensures !Awaits(s.client, s.queue[0]) ==> s.queue[0].lease != s.client.lease
  {
  }

  lemma OwnAnswered(sizes: Sizes, s: Sys, w: Watch, answer: Answer)
    requires Inv(sizes, s) && s.alive && s.queue != [] && Awaits(s.client, s.queue[0])
    requires HeardOk(sizes, s, w) && EffectOk(s, w)
    ensures var t, v := Worked(s, answer), Hear(w, ReplyTo(answer)); HeardOk(sizes, t, v) && EffectOk(t, v)
  {
    hide Whole;
    hide ToldOk;
    hide FollowAll;
    hide ClientFits;
    hide LastAsked;
    hide InHistory;
    hide Serve;
    hide Inv;
    OwnersOf(sizes, s);
    OwnIsLast(s);
    WorkRecords(sizes, s, answer);
  }

  lemma OwnersOf(sizes: Sizes, s: Sys)
    requires Inv(sizes, s) && s.alive
    ensures QueueOwners(s)
  {
  }

  lemma OtherAnswered(sizes: Sizes, s: Sys, w: Watch, answer: Answer)
    requires Inv(sizes, s) && s.alive && s.queue != [] && s.client.Leased? && !Awaits(s.client, s.queue[0])
    requires HeardOk(sizes, s, w) && EffectOk(s, w)
    ensures var t, v := Worked(s, answer), Watched(w, s, Works(answer)); HeardOk(sizes, t, v) && EffectOk(t, v)
  {
    hide Whole;
    hide ToldOk;
    hide FollowAll;
    hide ClientFits;
    hide LastAsked;
    hide InHistory;
    hide Serve;
    hide Inv;
    OwnersOf(sizes, s);
    OwnIsLast(s);
    WorkRecords(sizes, s, answer);
  }

  lemma UnseenWorked(sizes: Sizes, s: Sys, answer: Answer)
    requires Inv(sizes, s) && s.alive && s.queue != [] && Unseen(s)
    ensures Unseen(Worked(s, answer))
  {
    hide Inv;
    hide Serve;
    hide InHistory;
    WorkRecords(sizes, s, answer);
    assert s.queue[0] in s.queue && forall c | c in s.queue[1..] :: c in s.queue;
  }

  lemma WorksWatched(sizes: Sizes, s: Sys, w: Watch, answer: Answer, t: Sys)
    requires Inv(sizes, s) && WatchOk(sizes, s, w) && Moves(sizes, s, Works(answer), t)
    ensures WatchOk(sizes, t, Watched(w, s, Works(answer)))
  {
    hide Inv;
    hide Worked;
    hide HeardOk;
    hide EffectOk;
    hide Unseen;
    UnseenWorked(sizes, s, answer);
    if s.client.Free? {
      NobodyHears(sizes, s, w, answer);
    } else if Awaits(s.client, s.queue[0]) {
      OwnAnswered(sizes, s, w, answer);
    } else {
      OtherAnswered(sizes, s, w, answer);
    }
  }

  lemma NobodyHears(sizes: Sizes, s: Sys, w: Watch, answer: Answer)
    requires s.queue != [] && s.client.Free?
    ensures Worked(s, answer).client.Free?
    ensures HeardOk(sizes, Worked(s, answer), Watched(w, s, Works(answer)))
    ensures EffectOk(Worked(s, answer), Watched(w, s, Works(answer)))
  {
  }

  lemma MoveWatched(sizes: Sizes, s: Sys, w: Watch, m: Move, t: Sys)
    requires Inv(sizes, s) && WatchOk(sizes, s, w) && Moves(sizes, s, m, t)
    ensures WatchOk(sizes, t, Watched(w, s, m))
  {
    hide Inv;
    hide WatchOk;
    hide Moves;
    hide Watched;
    match m {
      case Checkout => CheckoutWatched(sizes, s, w, t);
      case Sends => SendsWatched(sizes, s, w, t);
      case AsksRollback => RolledWatched(sizes, s, w, t);
      case Works(answer) => WorksWatched(sizes, s, w, answer, t);
      case _ => FreeWatched(sizes, s, w, m, t);
    }
  }

  lemma {:induction false} EveryRunWatched(sizes: Sizes, run: seq<Sys>, moves: seq<Move>, i: nat)
    requires Execution(sizes, run, moves) && i < |run|
    ensures WatchOk(sizes, run[i], WatchAt(run, moves, i))
  {
    hide Moves;
    hide Watched;
    if i == 0 {
    } else {
      EveryRunWatched(sizes, run, moves, i - 1);
      SessionProof.EveryRunKeeps(sizes, run, moves, i - 1);
      MoveWatched(sizes, run[i - 1], WatchAt(run, moves, i - 1), moves[i - 1], run[i]);
    }
  }

  // ---- The fate ----

  /** The client of `apply` is through: it heard an error, or the answer to COMMIT. */
  predicate Ended(s: Sys, w: Watch) {
    s.client.Leased? && !w.rolled && !s.client.waiting && (s.client.failed || s.client.done)
  }

  /** In every run the replies heard by the client of a lease decide whether its script is in
      effect: this is the fate of its transaction, and what the server told for sure is that
      it runs or is rejected. */
  lemma RepliesDecide(sizes: Sizes, run: seq<Sys>, moves: seq<Move>, i: nat)
    requires Execution(sizes, run, moves) && i < |run| && Ended(run[i], WatchAt(run, moves, i))
    ensures var s, fate := run[i], FateOf(sizes(run[i].client.lease) + 1, WatchAt(run, moves, i).heard);
            var l := s.client.lease;
            && (InHistory(s.history, l) <==> !fate.Rejected?)
            && (fate.Runs? <==> l in s.told && s.told[l])
            && (l in s.told && !s.told[l] ==> fate.Rejected?)
            && (fate.ReplyLost? ==> l !in s.told)
  {
    hide Moves;
    hide Inv;
    hide Watched;
    EveryRunWatched(sizes, run, moves, i);
    HeardDecides(sizes, run[i], WatchAt(run, moves, i));
  }

  lemma HeardDecides(sizes: Sizes, s: Sys, w: Watch)
    requires WatchOk(sizes, s, w) && Ended(s, w)
    ensures var fate, l := FateOf(sizes(s.client.lease) + 1, w.heard), s.client.lease;
            && (InHistory(s.history, l) <==> !fate.Rejected?)
            && (fate.Runs? <==> l in s.told && s.told[l])
            && (l in s.told && !s.told[l] ==> fate.Rejected?)
            && (fate.ReplyLost? ==> l !in s.told)
  {
    hide InHistory;
    hide Unseen;
    hide FateOf;
    var n, c := sizes(s.client.lease) + 1, s.client;
    EffectIffCommitted(0, n, w.heard);
    assert FateOf(n, w.heard) == FateFrom(0, n, w.heard) by { FateIs(n, w.heard); }
    if c.done {
      assert |w.heard| == n + 1 && ReplyAt(w.heard, n) == LastOf(w);
    } else {
      assert !ReplyAt(w.heard, |w.heard| - 1).Done?;
    }
  }

  lemma FateIs(n: nat, replies: seq<Reply>)
    ensures FateOf(n, replies) == FateFrom(0, n, replies)
  {
  }

  // ---- The store ----

  /** What a lease of `apply` runs: the statements of a transaction, then its watermark. */
  datatype Job = Job(stmts: seq<string>, end: PgOutput.U64)

  type Jobs = nat -> Job

  function SizesOf(jobs: Jobs): Sizes { l => |jobs(l).stmts| + 1 }

  /** Statement `k` of the script. */
  ghost function RunOne(store: Store, job: Job, k: nat): Option<Store> {
    if k < |job.stmts| then
      match ExecText(store.tables, job.stmts[k])
      case None => None
      case Some(tables) => Some(store.(tables := tables))
    else if k == |job.stmts| then Some(WithWatermark(store, job.end))
    else None
  }

  ghost function RunThose(store: Store, job: Job, ran: seq<nat>): Option<Store> {
    if ran == [] then Some(store)
    else
      match RunThose(store, job, ran[..|ran| - 1])
      case None => None
      case Some(before) => RunOne(before, job, ran[|ran| - 1])
  }

  /** The store after the batches that took effect. */
  ghost function Replay(store: Store, jobs: Jobs, history: seq<Batch>): Option<Store> {
    if history == [] then Some(store)
    else
      var b := history[|history| - 1];
      match Replay(store, jobs, history[..|history| - 1])
      case None => None
      case Some(before) => RunThose(before, jobs(b.lease), b.ran)
  }

  /** The transactions of these leases applied one after the other. */
  ghost function AppliedAll(store: Store, jobs: Jobs, history: seq<Batch>): Store {
    if history == [] then store
    else
      var job := jobs(history[|history| - 1].lease);
      Applied(AppliedAll(store, jobs, history[..|history| - 1]), job.stmts, job.end)
  }

  /** What the open transaction sees. */
  ghost function Seen(store: Store, jobs: Jobs, s: Sys): Option<Store> {
    match Replay(store, jobs, s.history)
    case None => None
    case Some(now) => if s.session.Open? then RunThose(now, jobs(s.session.lease), s.session.ran) else Some(now)
  }

  /** The server reports a statement done only when it could run it. */
  ghost predicate Honest(store: Store, jobs: Jobs, s: Sys, m: Move) {
    m.Works? && m.answer == Ran(true) && s.queue != [] && s.queue[0].op.Exec? && Seen(store, jobs, s).Some? ==>
      RunOne(Seen(store, jobs, s).value, jobs(s.queue[0].lease), s.queue[0].op.k).Some?
  }

  lemma ReplaySnoc(store: Store, jobs: Jobs, history: seq<Batch>, b: Batch)
    ensures Replay(store, jobs, history + [b]) ==
            match Replay(store, jobs, history)
            case None => None
            case Some(before) => RunThose(before, jobs(b.lease), b.ran)
  {
    assert (history + [b])[..|history|] == history;
  }

  lemma RunThoseSnoc(store: Store, job: Job, ran: seq<nat>, k: nat)
    ensures RunThose(store, job, ran + [k]) ==
            match RunThose(store, job, ran) case None => None case Some(before) => RunOne(before, job, k)
  {
    assert (ran + [k])[..|ran|] == ran;
  }

  /** The worker's move keeps the store, and what the open transaction sees, defined. */
  lemma WorkedSeen(store: Store, jobs: Jobs, s: Sys, answer: Answer)
    requires Inv(SizesOf(jobs), s) && s.alive && s.queue != [] && Honest(store, jobs, s, Works(answer))
    requires Seen(store, jobs, s).Some?
    ensures Seen(store, jobs, Worked(s, answer)).Some?
  {
    hide Inv;
    hide RunOne;
    hide RunThose;
    hide Replay;
    hide Upto;
    var c := s.queue[0];
    if c.op.Exec? {
      StatementFindsItsTransaction(SizesOf(jobs), s);
      if answer == Ran(true) {
        RunThoseSnoc(Replay(store, jobs, s.history).value, jobs(c.lease), s.session.ran, c.op.k);
      }
    } else {
      OpensEmpty(store, jobs, s);
      if s.session.Open? {
        ReplaySnoc(store, jobs, s.history, Batch(s.session.lease, s.session.ran));
      }
    }
  }

  lemma OpensEmpty(store: Store, jobs: Jobs, s: Sys)
    ensures forall now: Store, l :: RunThose(now, jobs(l), []) == Some(now)
  {
  }

  lemma OthersSeen(sizes: Sizes, store: Store, jobs: Jobs, s: Sys, m: Move, t: Sys)
    requires !m.Works? && Moves(sizes, s, m, t)
    ensures Seen(store, jobs, t) == Seen(store, jobs, s)
  {
  }

  ghost predicate HonestRun(store: Store, jobs: Jobs, run: seq<Sys>, moves: seq<Move>) {
    && Execution(SizesOf(jobs), run, moves)
    && forall i | 0 <= i < |moves| :: Honest(store, jobs, run[i], moves[i])
  }

  lemma {:induction false} AlwaysSeen(store: Store, jobs: Jobs, run: seq<Sys>, moves: seq<Move>, i: nat)
    requires HonestRun(store, jobs, run, moves) && i < |run|
    ensures Seen(store, jobs, run[i]).Some?
  {
    hide Seen;
    hide Inv;
    hide Honest;
    if i == 0 {
      StartSeen(store, jobs, run[0]);
    } else {
      AlwaysSeen(store, jobs, run, moves, i - 1);
      SessionProof.EveryRunKeeps(SizesOf(jobs), run, moves, i - 1);
      var s, m, t := run[i - 1], moves[i - 1], run[i];
      assert Moves(SizesOf(jobs), s, m, t);
      if m.Works? {
        WorkedSeen(store, jobs, s, m.answer);
      } else {
        OthersSeen(SizesOf(jobs), store, jobs, s, m, t);
      }
    }
  }

  lemma StartSeen(store: Store, jobs: Jobs, s: Sys)
    requires Begins(s)
    ensures Seen(store, jobs, s).Some?
  {
  }

  // ---- Whole scripts ----

  lemma UptoNext(n: nat)
    ensures Upto(n + 1) == Upto(n) + [n] && Upto(0) == []
  {
  }

  lemma {:induction false} FirstOnes(store: Store, job: Job, n: nat)
    requires n <= |job.stmts| && RunThose(store, job, Upto(n)).Some?
    ensures RunScript(store.tables, job.stmts[..n]).Some?
    ensures RunThose(store, job, Upto(n)) == Some(store.(tables := RunScript(store.tables, job.stmts[..n]).value))
  {
    hide ExecText;
    hide RunThose;
    UptoNext(0);
    RunNone(store, job);
    if n == 0 {
      assert job.stmts[..0] == [];
    } else {
      UptoNext(n - 1);
      RunThoseSnoc(store, job, Upto(n - 1), n - 1);
      FirstOnes(store, job, n - 1);
      assert job.stmts[..n] == job.stmts[..n - 1] + [job.stmts[n - 1]];
      RunScriptSnoc(store.tables, job.stmts[..n - 1], job.stmts[n - 1]);
    }
  }

  lemma RunNone(store: Store, job: Job)
    ensures RunThose(store, job, []) == Some(store)
  {
  }

  /** A whole script that runs is the transaction applied. */
  lemma WholeIsApplied(store: Store, job: Job)
    requires RunThose(store, job, Upto(|job.stmts| + 1)).Some?
    ensures RunThose(store, job, Upto(|job.stmts| + 1)) == Some(Applied(store, job.stmts, job.end))
  {
    hide RunThose;
    hide RunScript;
    hide WithWatermark;
    var n := |job.stmts|;
    UptoNext(n);
    RunThoseSnoc(store, job, Upto(n), n);
    FirstOnes(store, job, n);
    assert job.stmts[..n] == job.stmts;
  }

  lemma {:induction false} ReplayIsApplied(store: Store, jobs: Jobs, history: seq<Batch>, low: nat)
    requires Whole(SizesOf(jobs), history, low) && Replay(store, jobs, history).Some?
    ensures Replay(store, jobs, history) == Some(AppliedAll(store, jobs, history))
  {
    hide RunThose;
    hide Applied;
    hide Upto;
    if history == [] {
    } else {
      var n := |history| - 1;
      ReplayIsApplied(store, jobs, history[..n], low);
      WholeIsApplied(AppliedAll(store, jobs, history[..n]), jobs(history[n].lease));
    }
  }

  /** In every run of a connection, with drops, broken sessions and a dying worker anywhere, the
      store is the one that the transactions of the leases in the history give, applied whole
      and in order. */
  lemma HistoryIsApplied(store: Store, jobs: Jobs, run: seq<Sys>, moves: seq<Move>, i: nat)
    requires HonestRun(store, jobs, run, moves) && i < |run|
    ensures Replay(store, jobs, run[i].history) == Some(AppliedAll(store, jobs, run[i].history))
  {
    hide Honest;
    hide Moves;
    hide Replay;
    AlwaysSeen(store, jobs, run, moves, i);
    SessionProof.EveryRunKeeps(SizesOf(jobs), run, moves, i);
    ReplayIsApplied(store, jobs, run[i].history, run[i].low);
  }

  /** The batches of the leases before this one. */
  function Before(history: seq<Batch>, l: nat): seq<Batch> {
    if history != [] && history[|history| - 1].lease == l then history[..|history| - 1] else history
  }

  lemma LastLease(sizes: Sizes, s: Sys)
    requires Whole(sizes, s.history, s.low) && Unseen(s) && s.client.Leased?
    ensures var l, h := s.client.lease, s.history;
            && (InHistory(h, l) <==> h != [] && h[|h| - 1].lease == l)
            && forall b | b in Before(h, l) :: b.lease < l
  {
    hide Upto;
    var l, h := s.client.lease, s.history;
    assert forall i | 0 <= i < |h| :: h[i] in h && h[i].lease <= l;
    assert h != [] && h[|h| - 1].lease == l ==> InHistory(h, l);
    if InHistory(h, l) {
      var k :| 0 <= k < |h| && h[k].lease == l;
      assert k == |h| - 1;
    }
  }

  /** So the store that `apply` leaves is the one before its lease with its transaction applied
      whole, or that store unchanged, as the replies it heard say. */
  lemma ApplyIsAtomic(store: Store, jobs: Jobs, run: seq<Sys>, moves: seq<Move>, i: nat)
    requires HonestRun(store, jobs, run, moves) && i < |run| && Ended(run[i], WatchAt(run, moves, i))
    ensures var s := run[i];
            var l := s.client.lease;
            var job, before := jobs(l), AppliedAll(store, jobs, Before(s.history, l));
            && (forall b | b in Before(s.history, l) :: b.lease < l)
            && Replay(store, jobs, s.history) ==
               Some(AfterFate(before, Applied(before, job.stmts, job.end),
                              FateOf(|job.stmts| + 2, WatchAt(run, moves, i).heard)))
  {
    hide Honest;
    hide Moves;
    hide Replay;
    hide Applied;
    hide FateOf;
    hide Watched;
    hide InHistory;
    HistoryIsApplied(store, jobs, run, moves, i);
    RepliesDecide(SizesOf(jobs), run, moves, i);
    EveryRunWatched(SizesOf(jobs), run, moves, i);
    SessionProof.EveryRunKeeps(SizesOf(jobs), run, moves, i);
    LastLease(SizesOf(jobs), run[i]);
  }
}
