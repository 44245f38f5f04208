/** In every run of a connection each transaction takes effect as a whole or not at all, and
    every first command of a lease finds the session outside a transaction. */
module SessionProof {
  import opened Wrappers
  import opened Session

  // ---- Following the queue ----

  lemma {:induction false} FollowFirst(sizes: Sizes, a: Course, q: seq<Cmd>)
    requires q != []
    ensures FollowAll(sizes, a, q) ==
            match Follow(sizes, a, q[0]) case None => None case Some(b) => FollowAll(sizes, b, q[1..])
  {
    var n := |q| - 1;
    if n == 0 {
      assert q[..0] == [] && q[1..] == [];
    } else {
      FollowFirst(sizes, a, q[..n]);
      assert q[..n][1..] == q[1..][..n - 1];
    }
  }

  lemma FollowSnoc(sizes: Sizes, a: Course, q: seq<Cmd>, c: Cmd)
    ensures FollowAll(sizes, a, q + [c]) ==
            match FollowAll(sizes, a, q) case None => None case Some(b) => Follow(sizes, b, c)
  {
  }

  /** The outcome a command was unsure about makes no difference to what follows it. */
  lemma UnsureNoMatter(sizes: Sizes, l: nat, a: Course, rest: seq<Cmd>)
    requires rest != [] && FollowAll(sizes, Unsure(l), rest).Some?
    requires if a.Rest? then a.low <= l + 1 else a.lease == l
    ensures FollowAll(sizes, a, rest) == FollowAll(sizes, Unsure(l), rest)
  {
  }

  // ---- The client's moves ----

  function End(sizes: Sizes, s: Sys): Option<Course> { FollowAll(sizes, CourseOf(s.session, s.low), s.queue) }

  lemma CheckoutKeeps(sizes: Sizes, s: Sys, t: Sys)
    requires Inv(sizes, s) && Moves(sizes, s, Checkout, t)
    ensures Inv(sizes, t)
  {
  }

  lemma FiredKeeps(sizes: Sizes, s: Sys)
    requires Inv(sizes, s) && s.client.Free? && s.alive
    ensures Inv(sizes, Fired(s))
  {
    FollowSnoc(sizes, CourseOf(s.session, s.low), s.queue, Cmd(s.next, Plain));
  }

  lemma SentKeeps(sizes: Sizes, s: Sys, op: Op)
    requires Inv(sizes, s) && Ready(s.client)
    requires op == OpAt(sizes, s.client.lease, s.client.asked) || (op == Rollback && s.client.asked > 0)
    ensures Inv(sizes, Sent(s, op))
  {
    if s.alive {
      FollowSnoc(sizes, CourseOf(s.session, s.low), s.queue, Cmd(s.client.lease, op));
    }
  }

  lemma DroppedCourse(sizes: Sizes, s: Sys)
    requires Inv(sizes, s) && s.client.Leased? && s.alive
    ensures End(sizes, Dropped(s)).Some? && ClientFits(sizes, Dropped(s), End(sizes, Dropped(s)).value)
  {
    hide Whole;
    hide ToldOk;
    hide LastAsked;
    FollowSnoc(sizes, CourseOf(s.session, s.low), s.queue, Cmd(s.client.lease, Rollback));
  }

  lemma DroppedOwners(s: Sys)
    requires QueueOwners(s) && s.client.Leased?
    ensures QueueOwners(Dropped(s))
  {
  }

  lemma DroppedKeeps(sizes: Sizes, s: Sys)
    requires Inv(sizes, s) && s.client.Leased?
    ensures Inv(sizes, Dropped(s))
  {
    hide Whole;
    hide ClientFits;
    hide QueueOwners;
    hide FollowAll;
    if s.alive {
      DroppedCourse(sizes, s);
      DroppedOwners(s);
    }
  }

  // ---- The worker's move ----

  /** The first command is one that fits the session. */
  lemma HeadFits(sizes: Sizes, s: Sys) returns (b: Course)
    requires Inv(sizes, s) && s.alive && s.queue != []
    ensures Follow(sizes, CourseOf(s.session, s.low), s.queue[0]) == Some(b)
    ensures End(sizes, s) == FollowAll(sizes, b, s.queue[1..])
  {
    FollowFirst(sizes, CourseOf(s.session, s.low), s.queue);
    b := Follow(sizes, CourseOf(s.session, s.low), s.queue[0]).value;
  }

  /** A BEGIN or a command without a transaction at the head of the queue finds no transaction
      open, whatever happened to the leases before. */
  lemma FirstCommandFindsQuiet(sizes: Sizes, s: Sys)
    requires Inv(sizes, s) && s.alive && s.queue != [] && (s.queue[0].op.Begin? || s.queue[0].op.Plain?)
    ensures s.session == Quiet
  {
    var b := HeadFits(sizes, s);
  }

  /** A statement at the head of the queue runs inside its own transaction, after exactly the
      statements before it. */
  lemma StatementFindsItsTransaction(sizes: Sizes, s: Sys)
    requires Inv(sizes, s) && s.alive && s.queue != [] && s.queue[0].op.Exec?
    ensures s.session == Open(s.queue[0].lease, Upto(s.queue[0].op.k))
  {
    var b := HeadFits(sizes, s);
  }

  /** Where a command whose outcome was open leaves the session. */
  predicate Settled(c: Cmd, a: Course, ok: bool) {
    if ok then a == Known(c.lease, if c.op.Exec? then c.op.k + 1 else 0)
    else a == Doomed(c.lease) || a == Rest(c.lease + 1)
  }

  lemma ServedSession(sizes: Sizes, s: Sys, b: Course, ok: bool)
    requires SessionOk(s) && s.queue != [] && Follow(sizes, CourseOf(s.session, s.low), s.queue[0]) == Some(b)
    ensures var c := s.queue[0];
            var (session, batch) := Serve(s.session, c, ok);
            var a := CourseOf(session, NextLow(s.low, c, session));
            && SessionOk(s.(session := session, low := NextLow(s.low, c, session)))
            && (b.Rest? ==> a == b)
            && (b.Unsure? ==> b == Unsure(c.lease) && Settled(c, a, ok))
            && (batch.Some? <==> ok && c.op.Commit?)
            && (batch.Some? ==> batch.value == Batch(c.lease, Upto(sizes(c.lease))) && s.low == c.lease)
            && s.low <= NextLow(s.low, c, session)
            && (!session.Open? ==> NextLow(s.low, c, session) == c.lease + 1)
  {
  }

  lemma HistoryKeeps(sizes: Sizes, history: seq<Batch>, low: nat, lease: nat, more: nat)
    requires Whole(sizes, history, low) && low <= more
    ensures Whole(sizes, history, more)
    ensures low == lease < more ==> Whole(sizes, history + [Batch(lease, Upto(sizes(lease)))], more)
  {
  }

  /** The rest of the queue leads where it led before, or the client learns the outcome. */
  lemma RestKeeps(sizes: Sizes, s: Sys, t: Sys, b: Course, ok: bool)
    requires Inv(sizes, s) && s.alive && t.alive && s.queue != [] && SessionOk(t)
    requires Follow(sizes, CourseOf(s.session, s.low), s.queue[0]) == Some(b)
    requires End(sizes, s) == FollowAll(sizes, b, s.queue[1..])
    requires t.queue == s.queue[1..] && t.next == s.next && t.client == Replied(s.client, s.queue[0], ok)
    requires b.Rest? ==> CourseOf(t.session, t.low) == b
    requires b.Unsure? ==> b == Unsure(s.queue[0].lease) && Settled(s.queue[0], CourseOf(t.session, t.low), ok)
    ensures QueueOwners(t) && LastAsked(sizes, t)
    ensures End(sizes, t).Some? && ClientFits(sizes, t, End(sizes, t).value)
  {
    var c, rest := s.queue[0], s.queue[1..];
    if rest != [] {
      if b.Unsure? {
        UnsureNoMatter(sizes, c.lease, CourseOf(t.session, t.low), rest);
      }
      assert rest[|rest| - 1] == s.queue[|s.queue| - 1];
      assert forall i | 0 <= i < |rest| :: rest[i] == s.queue[i + 1];
    }
    assert forall d | d in rest :: d in s.queue;
  }

  lemma HistoryBelow(sizes: Sizes, history: seq<Batch>, low: nat, l: nat)
    requires Whole(sizes, history, low) && l >= low
    ensures !InHistory(history, l)
  {
  }

  lemma RecordedHas(history: seq<Batch>, b: Option<Batch>, l: nat)
    ensures InHistory(Record(history, b), l) <==> InHistory(history, l) || (b.Some? && b.value.lease == l)
  {
    if b.Some? {
      assert (history + [b.value])[|history|] == b.value;
    }
    if InHistory(history, l) {
      var i :| 0 <= i < |history| && history[i].lease == l;
      assert Record(history, b)[i].lease == l;
    }
  }

  lemma ToldKeeps(sizes: Sizes, s: Sys, b: Course, ok: bool)
    requires Whole(sizes, s.history, s.low) && ToldOk(s) && SessionOk(s) && s.queue != []
    requires Follow(sizes, CourseOf(s.session, s.low), s.queue[0]) == Some(b)
    ensures ToldOk(Worked(s, Ran(ok)))
  {
    ServedSession(sizes, s, b, ok);
    var c, t := s.queue[0], Worked(s, Ran(ok));
    var batch := Serve(s.session, c, ok).1;
    forall l | l in t.told
      ensures l < t.low && (t.told[l] <==> InHistory(t.history, l))
    {
      RecordedHas(s.history, batch, l);
      if l >= s.low {
        HistoryBelow(sizes, s.history, s.low, l);
      } else {
        assert s.told[l] <==> InHistory(s.history, l);
      }
    }
  }

  lemma RanKeeps(sizes: Sizes, s: Sys, ok: bool)
    requires Inv(sizes, s) && s.alive && s.queue != []
    ensures Inv(sizes, Worked(s, Ran(ok)))
  {
    hide ToldOk;
    hide Whole;
    hide QueueOwners;
    hide LastAsked;
    hide ClientFits;
    var b := HeadFits(sizes, s);
    var t := Worked(s, Ran(ok));
    ServedSession(sizes, s, b, ok);
    HistoryKeeps(sizes, s.history, s.low, s.queue[0].lease, t.low);
    ToldKeeps(sizes, s, b, ok);
    RestKeeps(sizes, s, t, b, ok);
  }

  lemma BrokeKeeps(sizes: Sizes, s: Sys, effect: bool, reconnected: bool)
    requires Inv(sizes, s) && s.alive && s.queue != []
    ensures Inv(sizes, Worked(s, Broke(effect, reconnected)))
  {
    hide QueueOwners;
    hide LastAsked;
    hide ClientFits;
    var b := HeadFits(sizes, s);
    var t := Worked(s, Broke(effect, reconnected));
    ServedSession(sizes, s, b, true);
    assert b.Rest? ==> CourseOf(Quiet, t.low) == b;
    HistoryKeeps(sizes, s.history, s.low, s.queue[0].lease, t.low);
    ToldSurvives(sizes, s, t, if effect then Serve(s.session, s.queue[0], true).1 else None);
    if reconnected {
      RestKeeps(sizes, s, t, b, false);
    }
  }

  lemma ToldSurvives(sizes: Sizes, s: Sys, t: Sys, batch: Option<Batch>)
    requires Whole(sizes, s.history, s.low) && ToldOk(s)
    requires t.told == s.told && s.low <= t.low && t.history == Record(s.history, batch)
    requires batch.Some? ==> batch.value.lease >= s.low
    ensures ToldOk(t)
  {
    forall l | l in t.told
      ensures l < t.low && (t.told[l] <==> InHistory(t.history, l))
    {
      RecordedHas(s.history, batch, l);
      assert s.told[l] <==> InHistory(s.history, l);
    }
  }

  lemma MoveKeeps(sizes: Sizes, s: Sys, m: Move, t: Sys)
    requires Inv(sizes, s) && Moves(sizes, s, m, t)
    ensures Inv(sizes, t)
  {
    hide Inv;
    match m {
      case Checkout => CheckoutKeeps(sizes, s, t);
      case Fires => FiredKeeps(sizes, s);
      case Sends => SentKeeps(sizes, s, OpAt(sizes, s.client.lease, s.client.asked));
      case AsksRollback => SentKeeps(sizes, s, Rollback);
      case Drops => DroppedKeeps(sizes, s);
      case Works(Ran(ok)) => RanKeeps(sizes, s, ok);
      case Works(Broke(effect, reconnected)) => BrokeKeeps(sizes, s, effect, reconnected);
    }
  }

  // ---- Any run ----

  /** A fresh connection that nobody holds. */
  predicate Begins(s: Sys) {
    && s.queue == [] && s.session == Quiet && s.history == [] && s.client == Free && s.alive
    && s.low == 0 && s.told == map[]
  }

  ghost predicate Execution(sizes: Sizes, run: seq<Sys>, moves: seq<Move>) {
    && |run| == |moves| + 1 && Begins(run[0])
    && forall i | 0 <= i < |moves| :: Moves(sizes, run[i], moves[i], run[i + 1])
  }

  lemma {:induction false} EveryRunKeeps(sizes: Sizes, run: seq<Sys>, moves: seq<Move>, i: nat)
    requires Execution(sizes, run, moves) && i < |run|
    ensures Inv(sizes, run[i])
  {
    hide Moves;
    if i == 0 {
    } else {
      EveryRunKeeps(sizes, run, moves, i - 1);
      MoveKeeps(sizes, run[i - 1], moves[i - 1], run[i]);
    }
  }

  /** With drops, cancelled replies, broken connections and a dying worker at any point: what
      took effect are whole scripts, the watermark included, at most one for each lease. */
  lemma WholeOrNothing(sizes: Sizes, run: seq<Sys>, moves: seq<Move>, i: nat, k: nat)
    requires Execution(sizes, run, moves) && i < |run| && k < |run[i].history|
    ensures run[i].history[k].ran == Upto(sizes(run[i].history[k].lease))
    ensures forall j | 0 <= j < |run[i].history| && j != k :: run[i].history[j].lease != run[i].history[k].lease
  {
    EveryRunKeeps(sizes, run, moves, i);
  }

  /** What a client is told by the server is true and stays true: after an acknowledged COMMIT
      the script is in effect, after an error it never will be. */
  lemma ToldIsTrue(sizes: Sizes, run: seq<Sys>, moves: seq<Move>, i: nat, lease: nat)
    requires Execution(sizes, run, moves) && i < |run| && lease in run[i].told
    ensures run[i].told[lease] <==> InHistory(run[i].history, lease)
  {
    EveryRunKeeps(sizes, run, moves, i);
  }

  /** In every run, whenever the worker takes the first command of a lease the session is
      outside any transaction. */
  lemma NewLeaseStartsOutside(sizes: Sizes, run: seq<Sys>, moves: seq<Move>, i: nat)
    requires Execution(sizes, run, moves) && i < |moves| && moves[i].Works?
    requires run[i].queue != [] && (run[i].queue[0].op.Begin? || run[i].queue[0].op.Plain?)
    ensures run[i].session == Quiet
  {
    EveryRunKeeps(sizes, run, moves, i);
    assert Moves(sizes, run[i], moves[i], run[i + 1]);
    FirstCommandFindsQuiet(sizes, run[i]);
  }

  /** A client that sent on after a lost connection would break this: its next statement takes
      effect alone, without those before it. */
  lemma GoingOnSplits(s: Sys, lease: nat, ran: seq<nat>)
    requires s.alive && s.session == Open(lease, ran)
    requires s.queue == [Cmd(lease, Exec(|ran|)), Cmd(lease, Exec(|ran| + 1))]
    ensures var broken := Worked(s, Broke(false, true));
            && broken.alive && broken.queue != []
            && Worked(broken, Ran(true)).history == s.history + [Batch(lease, [|ran| + 1])]
  {
  }
}
