/** All interleavings of the futures, the reaper and the dying workers around the pool's
    locked sections. */
module PoolRuns {
  import opened Wrappers
  import opened Pool

  datatype Config = Config(min: nat, max: nat, ttl: nat)

  /** `leases` are the connections in the hands of futures, `handed` those sent to a waiter
      that has not picked them up, `creating` counts connections being opened and `leaked`
      those that went down with a dropped future. `dead` are the connections whose worker
      ended, `gone` the waiters that no longer listen, `made` and `asked` the next fresh
      names, and `now` the clock. */
  datatype Sys = Sys(
    shared: Shared, leases: set<nat>, handed: map<nat, nat>, creating: nat, leaked: nat,
    dead: set<nat>, gone: set<nat>, made: nat, asked: nat, now: nat)

  // ---- Moves ----

  datatype Move =
    | Acquires
    | Grabs
    | Opened
    | OpenFails
    | PicksUp(waiter: nat)
    | GivesUp(waiter: nat)
    | Returns(id: nat)
    | Cancelled(id: nat)
    | Reaps
    | Dies(id: nat)
    | Ticks(now: nat)

  /** What a future does with the outcome of a locked section. */
  function Proceed(s: Sys, shared: Shared, a: Action): Sys {
    match a
    case Got(c) => s.(shared := shared, leases := s.leases + {c.id})
    case Create => s.(shared := shared, creating := s.creating + 1)
    case Wait => s.(shared := shared, asked := s.asked + 1)
  }

  function Lower(s: Sys): Sys { s.(shared := s.shared.(live := s.shared.live - 1)) }

  /** `release`: a dead connection is forgotten, another one is passed on with the current
      time. */
  function Returned(s: Sys, id: nat): Sys {
    var s1 := s.(leases := s.leases - {id});
    if id in s.dead then Lower(s1)
    else
      match Release(s.shared, Conn(id, s.now), s.gone)
      case (shared, None) => s1.(shared := shared)
      case (shared, Some(w)) => s1.(shared := shared, handed := s.handed[w := id])
  }

  function PickedUp(s: Sys, waiter: nat): Sys
    requires waiter in s.handed
  {
    var s1 := s.(handed := s.handed - {waiter});
    if s.handed[waiter] in s.dead then Lower(s1) else s1.(leases := s.leases + {s.handed[waiter]})
  }

  /** A waiter is dropped, by the timeout or with its future. One that has its connection in
      the slot takes it along. */
  function GaveUp(s: Sys, waiter: nat): Sys {
    if waiter in s.handed then s.(handed := s.handed - {waiter}, leaked := s.leaked + 1)
    else s.(gone := s.gone + {waiter})
  }

  function Acquired(cfg: Config, s: Sys): Sys {
    var (shared, a) := Acquire(s.shared, s.dead, cfg.max, s.asked);
    Proceed(s, shared, a)
  }

  function Grabbed(cfg: Config, s: Sys): Sys {
    match Grab(s.shared, cfg.max)
    case Some((shared, a)) => Proceed(s, shared, a)
    case None => s
  }

  ghost predicate Moves(cfg: Config, s: Sys, m: Move, t: Sys) {
    match m
    case Acquires => t == Acquired(cfg, s)
    case Grabs => t == Grabbed(cfg, s)
    case Opened =>
      s.creating > 0 && t == s.(creating := s.creating - 1, leases := s.leases + {s.made}, made := s.made + 1)
    case OpenFails => s.creating > 0 && t == Lower(s.(creating := s.creating - 1))
    case PicksUp(waiter) => waiter in s.handed && t == PickedUp(s, waiter)
    case GivesUp(waiter) => waiter < s.asked && t == GaveUp(s, waiter)
    case Returns(id) => id in s.leases && t == Returned(s, id)
    case Cancelled(id) => id in s.leases && t == s.(leases := s.leases - {id}, leaked := s.leaked + 1)
    case Reaps => t == s.(shared := Reap(s.shared, s.dead, s.now, cfg.ttl, cfg.min))
    case Dies(id) => t == s.(dead := s.dead + {id})
    case Ticks(now) => now >= s.now && t == s.(now := now)
  }

  /** A future that had a connection, or was being handed one, was dropped. */
  predicate DropsConnection(s: Sys, m: Move) {
    m.Cancelled? || (m.GivesUp? && m.waiter in s.handed)
  }

  // ---- The invariant ----

  ghost predicate Conserved(cfg: Config, s: Sys) {
    |s.shared.idle| + |s.leases| + s.creating + |s.handed| + s.leaked == s.shared.live <= cfg.max
  }

  ghost predicate DistinctIds(idle: seq<Conn>) { forall i, j | 0 <= i < j < |idle| :: idle[i].id != idle[j].id }

  /** No connection is at two places. */
  ghost predicate Exclusive(s: Sys) {
    && DistinctIds(s.shared.idle)
    && (forall c | c in s.shared.idle :: c.id !in s.leases)
    && (forall c, w | c in s.shared.idle && w in s.handed :: c.id != s.handed[w])
    && (forall w | w in s.handed :: s.handed[w] !in s.leases)
    && forall v, w | v in s.handed && w in s.handed && v != w :: s.handed[v] != s.handed[w]
  }

  ghost predicate Named(s: Sys) {
    && (forall c | c in s.shared.idle :: c.id < s.made) && (forall id | id in s.leases :: id < s.made)
    && (forall w | w in s.handed :: w < s.asked && s.handed[w] < s.made)
    && (forall w | w in s.shared.waiters :: w < s.asked && w !in s.handed)
    && forall i, j | 0 <= i < j < |s.shared.waiters| :: s.shared.waiters[i] != s.shared.waiters[j]
  }

  ghost predicate InOrder(s: Sys) { Sorted(s.shared.idle) && forall c | c in s.shared.idle :: c.lastUsed <= s.now }

  ghost predicate Inv(cfg: Config, s: Sys) {
    && Conserved(cfg, s) && Exclusive(s) && Named(s) && InOrder(s)
    && (s.shared.idle == [] || s.shared.waiters == [])
  }

  // ---- What the sections take and leave ----

  /** The connection got is the last one alive. `idle` loses it and the dead ones after it, or
      all when none is alive, and `live` goes down by the dead ones. */
  lemma {:induction false} TakeCounts(s: Shared, dead: set<nat>)
    ensures var (t, got) := TakeIdle(s, dead);
            && t.idle <= s.idle && t.waiters == s.waiters
            && s.live - t.live == |s.idle| - |t.idle| - (if got.Some? then 1 else 0)
            && (got.None? ==> t.idle == [] && forall i | 0 <= i < |s.idle| :: s.idle[i].id in dead)
            && (got.Some? ==>
                  && |t.idle| < |s.idle| && got.value == s.idle[|t.idle|] && got.value.id !in dead
                  && forall i | |t.idle| < i < |s.idle| :: s.idle[i].id in dead)
    decreases |s.idle|
  {
    if s.idle == [] {
    } else {
      var c, rest := s.idle[|s.idle| - 1], s.(idle := s.idle[..|s.idle| - 1]);
      if c.id !in dead {
      } else {
        TakeCounts(rest.(live := rest.live - 1), dead);
      }
    }
  }

  /** The connection goes to the last waiter that still listens, past those that do not; with
      nobody listening it becomes the last idle one. */
  lemma {:induction false} ReleaseCounts(s: Shared, c: Conn, gone: set<nat>)
    ensures var (t, to) := Release(s, c, gone);
            && t.live == s.live && t.waiters <= s.waiters
            && (to.Some? ==>
                  && t.idle == s.idle && |t.waiters| < |s.waiters| && to.value == s.waiters[|t.waiters|]
                  && to.value !in gone && forall i | |t.waiters| < i < |s.waiters| :: s.waiters[i] in gone)
            && (to.None? ==> t.idle == s.idle + [c] && t.waiters == [] && forall w | w in s.waiters :: w in gone)
    decreases |s.waiters|
  {
    if s.waiters == [] {
    } else {
      var w, rest := s.waiters[|s.waiters| - 1], s.(waiters := s.waiters[..|s.waiters| - 1]);
      if w !in gone {
      } else {
        ReleaseCounts(rest, c, gone);
      }
    }
  }

  /** A future gets the last idle connection that is alive. With none alive it opens one when
      that stays within the maximum, and waits exactly when it does not. */
  lemma AcquireDecides(s: Shared, dead: set<nat>, max: nat, waiter: nat)
    ensures var (t, action) := Acquire(s, dead, max, waiter);
            if forall c | c in s.idle :: c.id in dead then
              if s.live - |s.idle| < max
              then action == Create && t == Shared([], s.waiters, s.live - |s.idle| + 1)
              else action == Wait && t == Shared([], s.waiters + [waiter], s.live - |s.idle|)
            else
              exists i | 0 <= i < |s.idle| ::
                && action == Got(s.idle[i]) && s.idle[i].id !in dead
                && (forall k | i < k < |s.idle| :: s.idle[k].id in dead)
                && t == Shared(s.idle[..i], s.waiters, s.live - (|s.idle| - 1 - i))
  {
    TakeCounts(s, dead);
    var (t, got) := TakeIdle(s, dead);
    if got.Some? {
      assert s.idle[|t.idle|] in s.idle && t.idle == s.idle[..|t.idle|];
    }
  }

  /** `fire_and_forget` takes the last idle connection, dead or alive, opens one when there is
      none and room, and gives up exactly when there is neither. */
  lemma GrabDecides(s: Shared, max: nat)
    ensures Grab(s, max) == None <==> s.idle == [] && s.live >= max
    ensures Grab(s, max).Some? ==>
              var (t, action) := Grab(s, max).value;
              if s.idle == [] then action == Create && t == Shared([], s.waiters, s.live + 1)
              else action.Got? && s.idle == t.idle + [action.conn] && t.live == s.live && t.waiters == s.waiters
  {
  }

  // ---- One connection at a time ----

  function WithIdle(s: Sys, idle: seq<Conn>, live: int): Sys {
    s.(shared := s.shared.(idle := idle, live := live))
  }

  lemma TrimmedApart(s: Sys, a: nat, b: nat, live: int)
    requires Exclusive(s) && a <= b <= |s.shared.idle|
    ensures Exclusive(WithIdle(s, s.shared.idle[a..b], live))
  {
  }

  /** Any stretch of `idle` can go when `live` goes down with it. */
  lemma TrimKeeps(cfg: Config, s: Sys, a: nat, b: nat)
    requires Inv(cfg, s) && a <= b <= |s.shared.idle|
    ensures Inv(cfg, WithIdle(s, s.shared.idle[a..b], s.shared.live - |s.shared.idle| + (b - a)))
  {
    hide Exclusive;
    TrimmedApart(s, a, b, s.shared.live - |s.shared.idle| + (b - a));
  }

  function TakenLast(s: Sys): Sys
    requires s.shared.idle != []
  {
    var n := |s.shared.idle| - 1;
    s.(shared := s.shared.(idle := s.shared.idle[..n]), leases := s.leases + {s.shared.idle[n].id})
  }

  lemma TakenLastApart(s: Sys)
    requires Exclusive(s) && s.shared.idle != []
    ensures Exclusive(TakenLast(s)) && s.shared.idle[|s.shared.idle| - 1].id !in s.leases
  {
    var n := |s.shared.idle| - 1;
    var rest := s.shared.idle[..n];
    assert forall c | c in rest :: c in s.shared.idle;
    assert s.shared.idle[n] in s.shared.idle;
    forall c | c in rest
      ensures c.id != s.shared.idle[n].id
    {
      var i :| 0 <= i < n && rest[i] == c;
      assert s.shared.idle[i] == c;
    }
  }

  lemma TakenLastNamed(s: Sys)
    requires Named(s) && s.shared.idle != []
    ensures Named(TakenLast(s))
  {
    var n := |s.shared.idle| - 1;
    assert forall c | c in s.shared.idle[..n] :: c in s.shared.idle;
    assert s.shared.idle[n] in s.shared.idle;
  }

  lemma TakeLastKeeps(cfg: Config, s: Sys)
    requires Inv(cfg, s) && s.shared.idle != []
    ensures Inv(cfg, TakenLast(s))
  {
    hide Exclusive;
    hide Named;
    TakenLastApart(s);
    TakenLastNamed(s);
  }

  lemma CreateKeeps(cfg: Config, s: Sys)
    requires Inv(cfg, s) && s.shared.live < cfg.max
    ensures Inv(cfg, s.(shared := s.shared.(live := s.shared.live + 1), creating := s.creating + 1))
  {
  }

  lemma WaitKeeps(cfg: Config, s: Sys)
    requires Inv(cfg, s) && s.shared.idle == []
    ensures Inv(cfg, s.(shared := s.shared.(waiters := s.shared.waiters + [s.asked]), asked := s.asked + 1))
  {
    var before := s.shared.waiters;
    forall i | 0 <= i < |before|
      ensures before[i] < s.asked
    {
      assert before[i] in before;
    }
  }

  lemma AcquiresKeeps(cfg: Config, s: Sys)
    requires Inv(cfg, s)
    ensures Inv(cfg, Acquired(cfg, s))
  {
    hide Inv;
    TakeCounts(s.shared, s.dead);
    var (shared, got) := TakeIdle(s.shared, s.dead);
    var n := |shared.idle| + if got.Some? then 1 else 0;
    var s1 := WithIdle(s, s.shared.idle[0..n], s.shared.live - |s.shared.idle| + n);
    TrimKeeps(cfg, s, 0, n);
    if got.Some? {
      assert s1.shared.idle[..n - 1] == shared.idle;
      TakeLastKeeps(cfg, s1);
    } else {
      assert s1.shared == shared;
      if shared.live < cfg.max {
        CreateKeeps(cfg, s1);
      } else {
        WaitKeeps(cfg, s1);
      }
    }
  }

  lemma GrabsKeeps(cfg: Config, s: Sys)
    requires Inv(cfg, s)
    ensures Inv(cfg, Grabbed(cfg, s))
  {
    hide Inv;
    if s.shared.idle != [] {
      TakeLastKeeps(cfg, s);
    } else if s.shared.live < cfg.max {
      CreateKeeps(cfg, s);
    }
  }

  /** Counters and clock have no part in where connections are. */
  lemma SameExclusive(s: Sys, t: Sys)
    requires t.shared.idle == s.shared.idle && t.leases == s.leases && t.handed == s.handed
    ensures Exclusive(t) == Exclusive(s)
  {
  }

  /** The waiter's slot is emptied. */
  function Emptied(s: Sys, waiter: nat): Sys { s.(handed := s.handed - {waiter}) }

  lemma PickedUpApart(s: Sys, waiter: nat)
    requires Exclusive(s) && waiter in s.handed
    ensures var t := Emptied(s, waiter); Exclusive(t) && Exclusive(t.(leases := s.leases + {s.handed[waiter]}))
    ensures s.handed[waiter] !in s.leases
  {
  }

  lemma PickedUpCounts(s: Sys, waiter: nat)
    requires waiter in s.handed
    ensures |Emptied(s, waiter).handed| == |s.handed| - 1
  {
    assert s.handed == Emptied(s, waiter).handed[waiter := s.handed[waiter]];
  }

  lemma PicksUpKeeps(cfg: Config, s: Sys, waiter: nat)
    requires Inv(cfg, s) && waiter in s.handed
    ensures Inv(cfg, PickedUp(s, waiter))
  {
    hide Exclusive;
    PickedUpApart(s, waiter);
    PickedUpCounts(s, waiter);
    var t := Emptied(s, waiter);
    if s.handed[waiter] in s.dead {
      SameExclusive(t, PickedUp(s, waiter));
    }
  }

  lemma GivesUpKeeps(cfg: Config, s: Sys, waiter: nat)
    requires Inv(cfg, s)
    ensures Inv(cfg, GaveUp(s, waiter))
  {
  }

  lemma ForgetKeeps(cfg: Config, s: Sys, id: nat)
    requires Inv(cfg, s) && id in s.leases
    ensures Inv(cfg, Lower(s.(leases := s.leases - {id})))
  {
  }

  /** The waiters passed over have gone; the last one left gets the connection. */
  lemma HandKeeps(cfg: Config, s: Sys, id: nat, n: nat)
    requires Inv(cfg, s) && id in s.leases && n < |s.shared.waiters|
    ensures Inv(cfg, s.(leases := s.leases - {id}, handed := s.handed[s.shared.waiters[n] := id],
                        shared := s.shared.(waiters := s.shared.waiters[..n])))
  {
    var w, rest := s.shared.waiters[n], s.shared.waiters[..n];
    assert w in s.shared.waiters && forall v | v in rest :: v in s.shared.waiters;
    forall v | v in rest
      ensures v != w
    {
      var i :| 0 <= i < n && rest[i] == v;
      assert s.shared.waiters[i] == v;
    }
  }

  lemma IdleApart(s: Sys, id: nat)
    requires Exclusive(s) && id in s.leases
    ensures Exclusive(s.(leases := s.leases - {id},
                         shared := s.shared.(idle := s.shared.idle + [Conn(id, s.now)], waiters := [])))
  {
  }

  lemma IdleKeeps(cfg: Config, s: Sys, id: nat)
    requires Inv(cfg, s) && id in s.leases
    ensures Inv(cfg, s.(leases := s.leases - {id},
                        shared := s.shared.(idle := s.shared.idle + [Conn(id, s.now)], waiters := [])))
  {
    hide Exclusive;
    IdleApart(s, id);
  }

  lemma ReturnsKeeps(cfg: Config, s: Sys, id: nat)
    requires Inv(cfg, s) && id in s.leases
    ensures Inv(cfg, Returned(s, id))
  {
    hide Inv;
    if id in s.dead {
      ForgetKeeps(cfg, s, id);
    } else {
      ReleaseCounts(s.shared, Conn(id, s.now), s.gone);
      var (shared, to) := Release(s.shared, Conn(id, s.now), s.gone);
      if to.Some? {
        assert shared.waiters == s.shared.waiters[..|shared.waiters|];
        HandKeeps(cfg, s, id, |shared.waiters|);
      } else {
        IdleKeeps(cfg, s, id);
      }
    }
  }

  lemma ReapsKeeps(cfg: Config, s: Sys)
    requires Inv(cfg, s)
    ensures Inv(cfg, s.(shared := Reap(s.shared, s.dead, s.now, cfg.ttl, cfg.min)))
  {
    hide Inv;
    ReapRemovesFront(s.shared, s.dead, s.now, cfg.ttl, cfg.min);
    var t := Reap(s.shared, s.dead, s.now, cfg.ttl, cfg.min);
    var k, n := |s.shared.idle| - |t.idle|, |s.shared.idle|;
    assert s.shared.idle[k..n] == s.shared.idle[k..];
    TrimKeeps(cfg, s, k, n);
  }

  lemma OpenedApart(cfg: Config, s: Sys)
    requires Inv(cfg, s)
    ensures s.made !in s.leases && Exclusive(s.(leases := s.leases + {s.made}))
  {
    hide Conserved;
    hide InOrder;
  }

  lemma OpenedKeeps(cfg: Config, s: Sys)
    requires Inv(cfg, s) && s.creating > 0
    ensures Inv(cfg, s.(creating := s.creating - 1, leases := s.leases + {s.made}, made := s.made + 1))
  {
    hide Exclusive;
    OpenedApart(cfg, s);
    SameExclusive(s.(leases := s.leases + {s.made}),
                  s.(creating := s.creating - 1, leases := s.leases + {s.made}, made := s.made + 1));
  }

  lemma OpenFailsKeeps(cfg: Config, s: Sys)
    requires Inv(cfg, s) && s.creating > 0
    ensures Inv(cfg, Lower(s.(creating := s.creating - 1)))
  {
    hide Exclusive;
    SameExclusive(s, Lower(s.(creating := s.creating - 1)));
  }

  lemma CancelledKeeps(cfg: Config, s: Sys, id: nat)
    requires Inv(cfg, s) && id in s.leases
    ensures Inv(cfg, s.(leases := s.leases - {id}, leaked := s.leaked + 1))
  {
  }

  lemma OutsideKeeps(cfg: Config, s: Sys, t: Sys)
    requires Inv(cfg, s) && t == s.(dead := t.dead, now := t.now) && s.now <= t.now
    ensures Inv(cfg, t)
  {
  }

  lemma MoveKeeps(cfg: Config, s: Sys, m: Move, t: Sys)
    requires Inv(cfg, s) && Moves(cfg, s, m, t)
    ensures Inv(cfg, t)
    ensures t.leaked == s.leaked + if DropsConnection(s, m) then 1 else 0
  {
    hide Inv;
    match m {
      case Acquires => AcquiresKeeps(cfg, s);
      case Grabs => GrabsKeeps(cfg, s);
      case PicksUp(waiter) => PicksUpKeeps(cfg, s, waiter);
      case GivesUp(waiter) => GivesUpKeeps(cfg, s, waiter);
      case Returns(id) => ReturnsKeeps(cfg, s, id);
      case Reaps => ReapsKeeps(cfg, s);
      case Opened => OpenedKeeps(cfg, s);
      case OpenFails => OpenFailsKeeps(cfg, s);
      case Cancelled(id) => CancelledKeeps(cfg, s, id);
      case Dies(_) => OutsideKeeps(cfg, s, t);
      case Ticks(_) => OutsideKeeps(cfg, s, t);
    }
  }

  // ---- Any run ----

  /** `start`: the minimum of connections, opened before anyone asks. */
  ghost predicate Begins(cfg: Config, s: Sys) {
    && cfg.min <= cfg.max
    && |s.shared.idle| == cfg.min && s.shared.waiters == [] && s.shared.live == cfg.min
    && DistinctIds(s.shared.idle) && InOrder(s) && (forall c | c in s.shared.idle :: c.id < s.made)
    && s.leases == {} && s.handed == map[] && s.creating == 0 && s.leaked == 0
  }

  ghost predicate Execution(cfg: Config, run: seq<Sys>, moves: seq<Move>) {
    && |run| == |moves| + 1 && Begins(cfg, run[0])
    && forall i | 0 <= i < |moves| :: Moves(cfg, run[i], moves[i], run[i + 1])
  }

  /** How many of the first moves dropped a connection with its future. */
  function Drops(run: seq<Sys>, moves: seq<Move>, n: nat): nat
    requires n <= |moves| < |run|
  {
    if n == 0 then 0
    else Drops(run, moves, n - 1) + if DropsConnection(run[n - 1], moves[n - 1]) then 1 else 0
  }

  lemma {:induction false} EveryRunKeeps(cfg: Config, run: seq<Sys>, moves: seq<Move>, i: nat)
    requires Execution(cfg, run, moves) && i < |run|
    ensures Inv(cfg, run[i]) && run[i].leaked == Drops(run, moves, i)
  {
    hide Moves;
    if i == 0 {
      assert Inv(cfg, run[0]);
    } else {
      EveryRunKeeps(cfg, run, moves, i - 1);
      MoveKeeps(cfg, run[i - 1], moves[i - 1], run[i]);
    }
  }

  function InUse(s: Sys): nat { |s.shared.idle| + |s.leases| + s.creating + |s.handed| }

  /** In every interleaving `live` stays between the connections there are and the maximum,
      and counts exactly them as long as no future is dropped with a connection; each dropped
      one is counted for ever. */
  lemma LiveCounts(cfg: Config, run: seq<Sys>, moves: seq<Move>, i: nat)
    requires Execution(cfg, run, moves) && i < |run|
    ensures 0 <= InUse(run[i]) <= run[i].shared.live <= cfg.max
    ensures run[i].shared.live - InUse(run[i]) == Drops(run, moves, i)
  {
    EveryRunKeeps(cfg, run, moves, i);
  }

  /** In every interleaving no connection is idle, leased or handed over twice, or two of
      these at once, and nobody waits while a connection is idle. */
  lemma NoSharedSession(cfg: Config, run: seq<Sys>, moves: seq<Move>, i: nat)
    requires Execution(cfg, run, moves) && i < |run|
    ensures Exclusive(run[i]) && (run[i].shared.idle == [] || run[i].shared.waiters == [])
  {
    EveryRunKeeps(cfg, run, moves, i);
  }

  /** In every interleaving `idle` is in order of last use, so a pass of the reaper leaves the
      minimum or connections that have not reached the time to live. */
  lemma ReaperLeavesFresh(cfg: Config, run: seq<Sys>, moves: seq<Move>, i: nat)
    requires Execution(cfg, run, moves) && i < |moves| && moves[i].Reaps?
    ensures var s, t := run[i].shared, run[i + 1].shared;
            && (|s.idle| >= cfg.min ==> |t.idle| >= cfg.min)
            && (|t.idle| <= cfg.min || forall c | c in t.idle :: run[i].now - c.lastUsed < cfg.ttl)
  {
    EveryRunKeeps(cfg, run, moves, i);
    ReapLeavesFresh(run[i].shared, run[i].dead, run[i].now, cfg.ttl, cfg.min);
    assert Moves(cfg, run[i], moves[i], run[i + 1]);
  }

  /** In every interleaving a future that asks for a connection waits exactly when no idle one
      is alive and those leased, handed over, being opened or lost make up the maximum; if not,
      it has one or opens one. */
  lemma WaitsOnlyWhenFull(cfg: Config, run: seq<Sys>, moves: seq<Move>, i: nat)
    requires Execution(cfg, run, moves) && i < |moves| && moves[i].Acquires?
    ensures var s, t := run[i], run[i + 1];
            if (forall c | c in s.shared.idle :: c.id in s.dead)
               && |s.leases| + |s.handed| + s.creating + Drops(run, moves, i) == cfg.max
            then t.shared.waiters == s.shared.waiters + [s.asked] && t.leases == s.leases && t.creating == s.creating
            else
              && t.shared.waiters == s.shared.waiters
              && |t.leases| + t.creating == |s.leases| + s.creating + 1
  {
    EveryRunKeeps(cfg, run, moves, i);
    assert Moves(cfg, run[i], moves[i], run[i + 1]);
    AcquireDecides(run[i].shared, run[i].dead, cfg.max, run[i].asked);
  }
}
