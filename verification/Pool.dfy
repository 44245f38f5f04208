/** The shared state of the connection pool (`crates/pglite/src/multiple_process/pool.rs`) and
    what each section under its lock does. */
module Pool {
  import opened Wrappers

  datatype Conn = Conn(id: nat, lastUsed: nat)

  /** `waiters` and the back of `idle` are taken from the end; the reaper takes `idle` from
      the front. */
  datatype Shared = Shared(idle: seq<Conn>, waiters: seq<nat>, live: int)

  datatype Action = Got(conn: Conn) | Create | Wait

  // ---- Under the lock ----

  /** The last idle connection that is alive; the dead ones after it are forgotten. */
  function TakeIdle(s: Shared, dead: set<nat>): (Shared, Option<Conn>)
    decreases |s.idle|
  {
    if s.idle == [] then (s, None)
    else
      var c, rest := s.idle[|s.idle| - 1], s.(idle := s.idle[..|s.idle| - 1]);
      if c.id in dead then TakeIdle(rest.(live := rest.live - 1), dead) else (rest, Some(c))
  }

  function Acquire(s: Shared, dead: set<nat>, max: nat, waiter: nat): (Shared, Action) {
    match TakeIdle(s, dead)
    case (s1, Some(c)) => (s1, Got(c))
    case (s1, None) =>
      if s1.live < max then (s1.(live := s1.live + 1), Create)
      else (s1.(waiters := s1.waiters + [waiter]), Wait)
  }

  /** A live connection goes to the last waiter that still listens, or becomes idle. */
  function Release(s: Shared, c: Conn, gone: set<nat>): (Shared, Option<nat>)
    decreases |s.waiters|
  {
    if s.waiters == [] then (s.(idle := s.idle + [c]), None)
    else
      var w, rest := s.waiters[|s.waiters| - 1], s.(waiters := s.waiters[..|s.waiters| - 1]);
      if w in gone then Release(rest, c, gone) else (rest, Some(w))
  }

  /** `fire_and_forget` takes the last idle connection without a look at it; None when there
      is none and no room for another. */
  function Grab(s: Shared, max: nat): Option<(Shared, Action)> {
    if s.idle != [] then Some((s.(idle := s.idle[..|s.idle| - 1]), Got(s.idle[|s.idle| - 1])))
    else if s.live < max then Some((s.(live := s.live + 1), Create))
    else None
  }

  predicate Expired(c: Conn, dead: set<nat>, now: int, ttl: nat) { c.id in dead || now - c.lastUsed >= ttl }

  /** One pass of the reaper. */
  function Reap(s: Shared, dead: set<nat>, now: int, ttl: nat, min: nat): Shared
    decreases |s.idle|
  {
    if |s.idle| > min && Expired(s.idle[0], dead, now, ttl) then
      Reap(s.(idle := s.idle[1..], live := s.live - 1), dead, now, ttl, min)
    else s
  }

  // ---- The sections ----

  class PoolState {
    var idle: seq<Conn>
    var waiters: seq<nat>
    var live: int

    function Now(): Shared
      reads this
    {
      Shared(idle, waiters, live)
    }

    constructor (conns: seq<Conn>)
      ensures Now() == Shared(conns, [], |conns|)
    {
      idle, waiters, live := conns, [], |conns|;
    }

    method AcquireLocked(dead: set<nat>, max: nat, waiter: nat) returns (action: Action)
      modifies this
      ensures (Now(), action) == Acquire(old(Now()), dead, max, waiter)
    {
      var got: Option<Conn> := None;
      while idle != [] && got.None?
        invariant waiters == old(waiters)
        invariant TakeIdle(old(Now()), dead) == if got.Some? then (Now(), got) else TakeIdle(Now(), dead)
        decreases |idle|
      {
        var conn := idle[|idle| - 1];
        idle := idle[..|idle| - 1];
        if conn.id !in dead {
          got := Some(conn);
        } else {
          live := live - 1;
        }
      }
      if got.Some? {
        return Got(got.value);
      }
      if live < max {
        live := live + 1;
        return Create;
      }
      waiters := waiters + [waiter];
      return Wait;
    }

    method ReleaseLocked(conn: Conn, gone: set<nat>) returns (to: Option<nat>)
      modifies this
      ensures (Now(), to) == Release(old(Now()), conn, gone)
    {
      while waiters != []
        invariant idle == old(idle) && live == old(live)
        invariant Release(old(Now()), conn, gone) == Release(Now(), conn, gone)
        decreases |waiters|
      {
        var waiter := waiters[|waiters| - 1];
        waiters := waiters[..|waiters| - 1];
        if waiter !in gone {
          return Some(waiter);
        }
      }
      idle := idle + [conn];
      return None;
    }

    method GrabLocked(max: nat) returns (action: Option<Action>)
      modifies this
      ensures match Grab(old(Now()), max)
              case Some((s, a)) => Now() == s && action == Some(a)
              case None => Now() == old(Now()) && action == None
    {
      if idle != [] {
        var conn := idle[|idle| - 1];
        idle := idle[..|idle| - 1];
        return Some(Got(conn));
      }
      if live < max {
        live := live + 1;
        return Some(Create);
      }
      return None;
    }

    method ReapLocked(dead: set<nat>, now: int, ttl: nat, min: nat) returns (doomed: seq<Conn>)
      modifies this
      ensures Now() == Reap(old(Now()), dead, now, ttl, min)
      ensures old(idle) == doomed + idle
    {
      doomed := [];
      while |idle| > min
        invariant waiters == old(waiters) && |doomed| <= |old(idle)|
        invariant doomed == old(idle)[..|doomed|] && idle == old(idle)[|doomed|..]
        invariant Reap(old(Now()), dead, now, ttl, min) == Reap(Now(), dead, now, ttl, min)
        decreases |idle|
      {
        var conn := idle[0];
        if !(conn.id in dead || now - conn.lastUsed >= ttl) {
          break;
        }
        idle := idle[1..];
        live := live - 1;
        doomed := doomed + [conn];
      }
    }
  }

  // ---- Reaping ----

  ghost predicate Sorted(idle: seq<Conn>) { forall i, j | 0 <= i < j < |idle| :: idle[i].lastUsed <= idle[j].lastUsed }

  /** A pass removes a front segment only, lowers `live` by its length, does not go below the
      minimum, and stops because it is reached or because the front has not expired. */
  ghost predicate Reaped(s: Shared, t: Shared, dead: set<nat>, now: int, ttl: nat, min: nat) {
    && |t.idle| <= |s.idle| && t.idle == s.idle[|s.idle| - |t.idle|..]
    && s.live - t.live == |s.idle| - |t.idle| && t.waiters == s.waiters
    && (|t.idle| < |s.idle| ==> min <= |t.idle|)
    && (|t.idle| <= min || (t.idle[0].id !in dead && now - t.idle[0].lastUsed < ttl))
    && forall i | 0 <= i < |s.idle| - |t.idle| :: s.idle[i].id in dead || now - s.idle[i].lastUsed >= ttl
  }

  lemma {:induction false} ReapRemovesFront(s: Shared, dead: set<nat>, now: int, ttl: nat, min: nat)
    ensures Reaped(s, Reap(s, dead, now, ttl, min), dead, now, ttl, min)
    decreases |s.idle|
  {
    if |s.idle| <= min || !Expired(s.idle[0], dead, now, ttl) {
    } else {
      var s1 := s.(idle := s.idle[1..], live := s.live - 1);
      ReapRemovesFront(s1, dead, now, ttl, min);
    }
  }

  /** With `idle` in order of last use: after a pass only the minimum is left, or nothing left
      has reached the time to live. */
  lemma ReapLeavesFresh(s: Shared, dead: set<nat>, now: int, ttl: nat, min: nat)
    requires Sorted(s.idle)
    ensures var t := Reap(s, dead, now, ttl, min);
            && Sorted(t.idle) && (|s.idle| >= min ==> |t.idle| >= min)
            && (|t.idle| <= min || forall c | c in t.idle :: now - c.lastUsed < ttl)
  {
    ReapRemovesFront(s, dead, now, ttl, min);
    var t := Reap(s, dead, now, ttl, min);
    var k := |s.idle| - |t.idle|;
    forall i | 0 <= i < |t.idle|
      ensures t.idle[i] == s.idle[k + i]
    {
    }
  }
}
