/** Transactions on one pooled connection (`crates/pglite/src/transaction.rs` and the worker of
    `crates/pglite/src/multiple_process/pool.rs`). Leases of the connection follow one
    another; each runs BEGIN, the statements of its script and COMMIT, and may be dropped at
    any point. The commands of all leases go through one queue to the worker. */
module Session {
  import opened Wrappers

  /** `Exec(k)` is the k-th statement of the script of its lease; `Plain` is a command sent
      without a transaction, by a round trip or fired and forgotten. */
  datatype Op = Begin | Exec(k: nat) | Commit | Rollback | Plain

  datatype Cmd = Cmd(lease: nat, op: Op)

  // ---- The transaction handle ----

  /** What a handle has sent, and its `done` flag. */
  class Transaction {
    const lease: nat
    var sent: seq<Cmd>
    var done: bool

    constructor (lease: nat)
      ensures this.lease == lease && sent == [Cmd(lease, Begin)] && !done
    {
      this.lease, sent, done := lease, [Cmd(lease, Begin)], false;
    }

    method Execute(k: nat)
      modifies this`sent
      ensures sent == old(sent) + [Cmd(lease, Exec(k))]
    {
      sent := sent + [Cmd(lease, Exec(k))];
    }

    method DoCommit()
      modifies this
      ensures done && sent == old(sent) + [Cmd(lease, Commit)]
    {
      done := true;
      sent := sent + [Cmd(lease, Commit)];
    }

    method DoRollback()
      modifies this
      ensures done && sent == old(sent) + [Cmd(lease, Rollback)]
    {
      done := true;
      sent := sent + [Cmd(lease, Rollback)];
    }

    method Drop()
      modifies this`sent
      ensures sent == old(sent) + if done then [] else [Cmd(lease, Rollback)]
    {
      if !done {
        sent := sent + [Cmd(lease, Rollback)];
      }
      assert done ==> sent + [] == sent;
    }
  }

  function FirstStatements(lease: nat, n: nat): (cs: seq<Cmd>)
    ensures |cs| == n
  {
    seq(n, k requires 0 <= k < n => Cmd(lease, Exec(k)))
  }

  predicate AllPass(replies: seq<Outcome>, n: nat)
    requires n <= |replies|
  {
    forall i | 0 <= i < n :: replies[i].Pass?
  }

  /** `apply`: statements one by one until one fails, then COMMIT if none did. Everything
      sent: all the script and COMMIT, or a part of it and ROLLBACK. */
  method ApplyScript(lease: nat, replies: seq<Outcome>) returns (sent: seq<Cmd>, o: Outcome, ran: nat)
    requires |replies| >= 2
    ensures ran <= |replies| - 2
    ensures sent == [Cmd(lease, Begin)] + FirstStatements(lease, ran) +
                    [Cmd(lease, if ran == |replies| - 2 && AllPass(replies, ran + 1) then Commit else Rollback)]
    ensures o.Pass? <==> AllPass(replies, |replies|)
    ensures o.Fail? ==> o in replies
  {
    var tx := new Transaction(lease);
    o, ran := replies[0], 0;
    while o.Pass? && ran < |replies| - 2
      invariant fresh(tx) && tx.lease == lease && !tx.done && ran <= |replies| - 2
      invariant tx.sent == [Cmd(lease, Begin)] + FirstStatements(lease, ran)
      invariant o in replies && o == replies[ran] && AllPass(replies, ran)
      decreases |replies| - ran, o.Pass?
    {
      tx.Execute(ran);
      assert FirstStatements(lease, ran + 1) == FirstStatements(lease, ran) + [Cmd(lease, Exec(ran))];
      o := replies[ran + 1];
      ran := ran + 1;
    }
    if o.Pass? {
      tx.DoCommit();
      o := replies[|replies| - 1];
    }
    tx.Drop();
    sent := tx.sent;
  }

  // ---- The connection ----

  datatype ServerSession = Quiet | Open(lease: nat, ran: seq<nat>) | Aborted(lease: nat)

  /** Statements that took effect together. */
  datatype Batch = Batch(lease: nat, ran: seq<nat>)

  /** `asked` counts the commands sent; `waiting` for the reply to the last of them. */
  datatype Client = Free | Leased(lease: nat, asked: nat, waiting: bool, done: bool, failed: bool)

  /** `low`: leases below it can take effect no more. `told`: what a client learned for sure
      from the server. */
  datatype Sys = Sys(
    queue: seq<Cmd>, session: ServerSession, history: seq<Batch>, client: Client,
    next: nat, alive: bool, low: nat, told: map<nat, bool>)

  /** The size of the script of each lease. */
  type Sizes = nat -> nat

  datatype Answer = Ran(ok: bool) | Broke(effect: bool, reconnected: bool)

  datatype Move = Checkout | Fires | Sends | AsksRollback | Drops | Works(answer: Answer)

  /** The server runs one command. Outside a transaction a statement takes effect alone. */
  function Serve(session: ServerSession, c: Cmd, ok: bool): (ServerSession, Option<Batch>) {
    match (c.op, session)
    case (Begin, Quiet) => (if ok then Open(c.lease, []) else Quiet, None)
    case (Begin, _) => (session, None)
    case (Exec(k), Quiet) => (Quiet, if ok then Some(Batch(c.lease, [k])) else None)
    case (Exec(k), Open(l, ran)) => (if ok then Open(l, ran + [k]) else Aborted(l), None)
    case (Exec(k), Aborted(_)) => (session, None)
    case (Commit, Open(l, ran)) => (Quiet, if ok then Some(Batch(l, ran)) else None)
    case (Plain, _) => (session, None)
    case (_, _) => (Quiet, None)
  }

  function Record(history: seq<Batch>, b: Option<Batch>): seq<Batch> {
    if b.Some? then history + [b.value] else history
  }

  function Max(a: nat, b: nat): nat { if a >= b then a else b }

  /** The next value of `low`: a lease in progress can still take effect, one that ended,
      failed or lost its session cannot. */
  function NextLow(low: nat, c: Cmd, after: ServerSession): nat {
    if after.Open? then after.lease else Max(low, c.lease + 1)
  }

  function Replied(client: Client, c: Cmd, ok: bool): Client {
    if client.Leased? && client.waiting && client.lease == c.lease then client.(waiting := false, failed := !ok)
    else client
  }

  function Told(s: Sys, c: Cmd, ok: bool): map<nat, bool> {
    if s.client.Leased? && s.client.waiting && s.client.lease == c.lease && (c.op.Commit? || (!ok && !c.op.Rollback?))
    then s.told[c.lease := ok]
    else s.told
  }

  /** The worker takes the first command. */
  function Worked(s: Sys, answer: Answer): Sys
    requires s.queue != []
  {
    var c, rest := s.queue[0], s.queue[1..];
    match answer
    case Ran(ok) =>
      var (session, batch) := Serve(s.session, c, ok);
      s.(queue := rest, session := session, history := Record(s.history, batch),
         client := Replied(s.client, c, ok), low := NextLow(s.low, c, session), told := Told(s, c, ok))
    case Broke(effect, reconnected) =>
      var batch := if effect then Serve(s.session, c, true).1 else None;
      s.(queue := if reconnected then rest else [], session := Quiet, history := Record(s.history, batch),
         client := if reconnected then Replied(s.client, c, false) else Lost(s.client),
         alive := reconnected, low := Max(s.low, c.lease + 1))
  }

  /** With the worker gone, every reply outstanding is lost. */
  function Lost(client: Client): Client {
    if client.Leased? && client.waiting then client.(waiting := false, failed := true) else client
  }

  function OpAt(sizes: Sizes, lease: nat, n: nat): Op {
    if n == 0 then Begin else if n <= sizes(lease) then Exec(n - 1) else Commit
  }

  /** To a dead worker nothing can be sent. */
  function Sent(s: Sys, op: Op): Sys
    requires s.client.Leased?
  {
    var ending := op.Commit? || op.Rollback?;
    var client := s.client.(asked := s.client.asked + 1, done := ending, waiting := s.alive, failed := !s.alive);
    s.(client := client, queue := if s.alive then s.queue + [Cmd(s.client.lease, op)] else s.queue)
  }

  /** The handle is dropped: ROLLBACK is queued before the connection is released. */
  function Dropped(s: Sys): Sys
    requires s.client.Leased?
  {
    s.(client := Free,
       queue := if s.client.done || !s.alive then s.queue else s.queue + [Cmd(s.client.lease, Rollback)])
  }

  /** A lease for one command alone: it is queued and the connection released, after the reply
      or without waiting for it. */
  function Fired(s: Sys): Sys { s.(queue := s.queue + [Cmd(s.next, Plain)], next := s.next + 1) }

  /** The client goes on only after a reply that was not an error. */
  predicate Ready(c: Client) { c.Leased? && !c.waiting && !c.failed && !c.done }

  ghost predicate Moves(sizes: Sizes, s: Sys, m: Move, t: Sys) {
    match m
    case Checkout =>
      s.client.Free? && s.alive && t == s.(client := Leased(s.next, 0, false, false, false), next := s.next + 1)
    case Fires => s.client.Free? && s.alive && t == Fired(s)
    case Sends => Ready(s.client) && t == Sent(s, OpAt(sizes, s.client.lease, s.client.asked))
    case AsksRollback => Ready(s.client) && s.client.asked > 0 && t == Sent(s, Rollback)
    case Drops => s.client.Leased? && t == Dropped(s)
    case Works(answer) => s.queue != [] && s.alive && t == Worked(s, answer)
  }

  // ---- What the queue holds ----

  /** Where the session will be after commands still in the queue. `Unsure`: the outcome of
      the last command for the lease is not known yet, so only ROLLBACK may follow. */
  datatype Course = Rest(low: nat) | Known(lease: nat, ran: nat) | Unsure(lease: nat) | Doomed(lease: nat)

  function CourseOf(session: ServerSession, low: nat): Course {
    match session
    case Quiet => Rest(low)
    case Open(l, ran) => Known(l, |ran|)
    case Aborted(l) => Doomed(l)
  }

  function Follow(sizes: Sizes, a: Course, c: Cmd): Option<Course> {
    match (a, c.op)
    case (Rest(low), Begin) => if c.lease >= low then Some(Unsure(c.lease)) else None
    case (Rest(low), Plain) => if c.lease >= low then Some(Rest(c.lease + 1)) else None
    case (Rest(low), Rollback) => if c.lease + 1 >= low then Some(Rest(c.lease + 1)) else None
    case (Known(l, k), Exec(j)) => if c.lease == l && j == k < sizes(l) then Some(Unsure(l)) else None
    case (Known(l, k), Commit) => if c.lease == l && k == sizes(l) then Some(Rest(l + 1)) else None
    case (Known(l, _), Rollback) => if c.lease == l then Some(Rest(l + 1)) else None
    case (Unsure(l), Rollback) => if c.lease == l then Some(Rest(l + 1)) else None
    case (Doomed(l), Rollback) => if c.lease == l then Some(Rest(l + 1)) else None
    case (_, _) => None
  }

  function FollowAll(sizes: Sizes, a: Course, q: seq<Cmd>): Option<Course> {
    if q == [] then Some(a)
    else
      var b :- FollowAll(sizes, a, q[..|q| - 1]);
      Follow(sizes, b, q[|q| - 1])
  }

  // ---- The invariant ----

  function Upto(n: nat): (r: seq<nat>)
    ensures |r| == n
  {
    seq(n, k requires 0 <= k < n => k)
  }

  /** Every batch is the whole script of its lease, no lease has two, and only leases below
      `low` have one. */
  ghost predicate Whole(sizes: Sizes, history: seq<Batch>, low: nat) {
    && (forall i | 0 <= i < |history| ::
          history[i].ran == Upto(sizes(history[i].lease)) && history[i].lease < low)
    && forall i, j | 0 <= i < j < |history| :: history[i].lease < history[j].lease
  }

  ghost predicate SessionOk(s: Sys) {
    match s.session
    case Quiet => true
    case Open(l, ran) => s.low == l && ran == Upto(|ran|)
    case Aborted(l) => s.low == l + 1
  }

  ghost predicate QueueOwners(s: Sys) {
    match s.client
    case Free => forall c | c in s.queue :: c.lease < s.next
    case Leased(l, _, waiting, _, _) =>
      && l + 1 == s.next && (waiting ==> s.queue != [] && s.queue[|s.queue| - 1].lease == l)
      && forall i | 0 <= i < |s.queue| && (waiting ==> i < |s.queue| - 1) :: s.queue[i].lease < l
  }

  /** What the client may count on about the session once the queue is empty. */
  ghost predicate ClientFits(sizes: Sizes, s: Sys, end: Course) {
    match s.client
    case Free => end.Rest? && end.low <= s.next
    case Leased(l, asked, waiting, done, failed) =>
      if done then end.Rest? && end.low <= l + 1
      else if failed then (end.Rest? && end.low <= l + 1) || end == Doomed(l)
      else if waiting then asked >= 1 && end == Unsure(l)
      else if asked == 0 then end.Rest? && end.low <= l
      else s.queue == [] && asked - 1 <= sizes(l) && end == Known(l, asked - 1)
  }

  ghost predicate LastAsked(sizes: Sizes, s: Sys) {
    s.client.Leased? && s.client.waiting && !s.client.done ==>
      && s.queue != [] && 1 <= s.client.asked <= sizes(s.client.lease) + 1
      && s.queue[|s.queue| - 1].op == OpAt(sizes, s.client.lease, s.client.asked - 1)
  }

  ghost predicate InHistory(history: seq<Batch>, l: nat) { exists i :: 0 <= i < |history| && history[i].lease == l }

  ghost predicate ToldOk(s: Sys) {
    forall l | l in s.told ::
      && l < s.low
      && (s.told[l] <==> InHistory(s.history, l))
  }

  ghost predicate Inv(sizes: Sizes, s: Sys) {
    && Whole(sizes, s.history, s.low) && ToldOk(s)
    && (s.alive ==>
          && SessionOk(s) && QueueOwners(s) && LastAsked(sizes, s)
          && var end := FollowAll(sizes, CourseOf(s.session, s.low), s.queue);
             end.Some? && ClientFits(sizes, s, end.value))
    && (!s.alive ==> s.queue == [])
  }
}
