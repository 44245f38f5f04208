/** How a connection ends, by its causes: a stop, an error after which the replica connects
    again, or any other error, which halts it. */
module Endings {
  import opened Wrappers
  import opened PgOutput
  import opened SqlText
  import opened RowChanges
  import opened Database
  import opened Fates
  import opened Fingerprint
  import opened SchemaDelta
  import opened Replication
  import Delivery

  /** The connection broke, the upstream ended the stream, the slot is in use, or the server is
      shutting down, crashed or starting. */
  predicate Passing(e: Error) {
    || e == Io || e == Upstream
    || e == Database("55006") || e == Database("57P01") || e == Database("57P02") || e == Database("57P03")
  }

  /** An invalidated slot halts the replica. */
  predicate InvalidatedOr(reported: Error, x: Error) {
    if reported == Database("55000") then x == ReplicaHalted else x == reported
  }

  // ---- What a message raises ----

  /** A row message of a relation not announced, outside a transaction, or without a
      statement. */
  predicate RowRaises(s: State, relId: U32, m: Msg, x: Error) {
    if relId !in s.vars.rels || s.vars.txn.None? then x == Protocol
    else PlanOf(s.vars.rels[relId], m) == Failure(x)
  }

  /** A commit outside a transaction, or one that was to be applied and failed. */
  predicate CommitRaises(s: State, end: U64, apply: Fate, x: Error) {
    if s.vars.txn.None? then x == Protocol
    else s.watermark < end && s.vars.txn.value.stmts != [] && (apply == Rejected(x) || apply == ReplyLost(x))
  }

  /** A table that is not expected or changed other than by added columns; an ALTER that fails;
      a new text that is not saved. */
  predicate RelationRaises(s: State, key: Target, cols: seq<Column>, a: Answers, x: Error) {
    if key !in s.vars.expected then x == ReplicaHalted
    else if s.vars.expected[key] == Line(key, cols) then false
    else
      match Classify(s.vars.expected[key], cols)
      case Incompatible => x == ReplicaHalted
      case Additive(n) =>
        if n < |cols| && a.alter.AlterFailed? then x == a.alter.error
        else a.save == Rejected(x) || a.save == ReplyLost(x)
  }

  /** A schema signal whose statements fail, that retypes a column, whose new text is not
      saved, or after which the roles and policies fail. */
  ghost predicate SignalRaises(s: State, a: Answers, x: Error) {
    match a.resync
    case ResyncFailed(_, e) => x == e
    case Resynced(defs, _) =>
      if WholeDelta(s.store.tables, OldOf(SortedLines(s.vars.expected)), defs).None? then x == ReplicaHalted
      else if multiset(LinesOf(DefText(defs))) != multiset(SortedLines(s.vars.expected)) && !a.save.Runs? then
        a.save == Rejected(x) || a.save == ReplyLost(x)
      else a.security == Fail(x)
  }

  ghost predicate MessageRaises(s: State, m: Msg, a: Answers, x: Error) {
    match m
    case Begin(_, _, _) => false
    case Relation(_, _, _, _, _) => RelationRaises(s, Target(m.namespace, m.name), Map(ColumnOf, m.columns), a, x)
    case Insert(id, _) => RowRaises(s, id, m, x)
    case Update(id, _, _, _) => RowRaises(s, id, m, x)
    case Delete(id, _, _) => RowRaises(s, id, m, x)
    case Truncate(ids) => x == Protocol && (s.vars.txn.None? || exists id :: id in ids && id !in s.vars.rels)
    case Commit(_, end, _) => CommitRaises(s, end, ApplyFate(s, a), x)
    case Message(prefix, _) => prefix == "pglite_ddl" && SignalRaises(s, a, x)
    case Other => false
  }

  /** The error that an event raises in this state. */
  ghost predicate Raises(s: State, e: Event, x: Error) {
    match e
    case Stop => false
    case ReadTimeout => false
    case StatusDue(status) => status == Fail(x)
    case RolePoll(security) => security == Fail(x)
    case ReadFailed(error) => InvalidatedOr(error, x)
    case Received(msg, a) =>
      match msg
      case Keepalive(_, replyRequested) => replyRequested && a.status == Fail(x)
      case CopyDone => x == Upstream
      case XLogData(data) =>
        match DecodeMsg(data)
        case Failure(error) => x == error
        case Success(m) => MessageRaises(s, m, a, x)
  }

  lemma RowEnds(s: State, relId: U32, m: Msg)
    ensures !OnRow(s, relId, m).1.Stopped?
    ensures forall x :: OnRow(s, relId, m).1 == Errored(x) <==> RowRaises(s, relId, m, x)
  {
    hide PlanOf;
    hide Print;
  }

  lemma CommitEnds(s: State, c: U64, end: U64, ts: I64, apply: Fate)
    ensures !OnCommit(s, c, end, ts, apply).1.Stopped?
    ensures forall x :: OnCommit(s, c, end, ts, apply).1 == Errored(x) <==> CommitRaises(s, end, apply, x)
  {
    hide Applied;
  }

  lemma RelationEnds(s: State, m: Msg, a: Answers)
    requires m.Relation?
    ensures !OnRelation(s, m, a).1.Stopped?
    ensures forall x :: OnRelation(s, m, a).1 == Errored(x) <==>
                        RelationRaises(s, Target(m.namespace, m.name), Map(ColumnOf, m.columns), a, x)
  {
    hide Line;
    hide AddColumns;
    hide TextOf;
  }

  lemma SignalEnds(s: State, a: Answers)
    ensures !OnDdl(s, a).1.Stopped?
    ensures forall x :: OnDdl(s, a).1 == Errored(x) <==> SignalRaises(s, a, x)
  {
    hide WholeDelta;
    hide DefText;
    hide Expected;
    hide LinesOf;
  }

  lemma MessageEnds(s: State, m: Msg, a: Answers)
    ensures !OnMsg(s, m, a).1.Stopped?
    ensures forall x :: OnMsg(s, m, a).1 == Errored(x) <==> MessageRaises(s, m, a, x)
  {
    hide OnRow;
    hide RowRaises;
    hide OnCommit;
    hide CommitRaises;
    hide OnRelation;
    hide RelationRaises;
    hide OnDdl;
    hide SignalRaises;
    hide Print;
    match m {
      case Relation(_, _, _, _, _) => RelationEnds(s, m, a);
      case Insert(id, _) => RowEnds(s, id, m);
      case Update(id, _, _, _) => RowEnds(s, id, m);
      case Delete(id, _, _) => RowEnds(s, id, m);
      case Commit(c, end, ts) => CommitEnds(s, c, end, ts, ApplyFate(s, a));
      case Message(_, _) => SignalEnds(s, a);
      case _ =>
    }
  }

  /** An event stops the loop exactly when it is the stop, and ends it in an error exactly when
      it raises that error. */
  lemma EventEnds(s: State, e: Event)
    ensures Step(s, e).1.Stopped? <==> e.Stop?
    ensures forall x :: Step(s, e).1 == Errored(x) <==> Raises(s, e, x)
  {
    hide OnMsg;
    hide MessageRaises;
    hide DecodeMsg;
    if e.Received? && e.msg.XLogData? && DecodeMsg(e.msg.data).Success? {
      MessageEnds(s, DecodeMsg(e.msg.data).value, e.answers);
    }
  }

  // ---- The event that ends the loop ----

  /** The loop has read the events before the k-th and reads that one next. */
  ghost predicate ReadsNext(s: State, events: seq<Event>, k: nat) {
    k < |events| && Steps(s, events[..k]).1.Running?
  }

  lemma {:induction false} EndsThere(s: State, events: seq<Event>, k: nat)
    requires ReadsNext(s, events, k) && !Step(Steps(s, events[..k]).0, events[k]).1.Running?
    ensures Steps(s, events) == Step(Steps(s, events[..k]).0, events[k])
    decreases |events|
  {
    hide Step;
    hide Steps;
    var n := |events| - 1;
    assert events == events[..n] + [events[n]];
    Delivery.StepsSnoc(s, events[..n], events[n]);
    if k == n {
    } else {
      assert events[..n][..k] == events[..k];
      EndsThere(s, events[..n], k);
    }
  }

  lemma {:induction false} EndedSomewhere(s: State, events: seq<Event>) returns (k: nat)
    requires !Steps(s, events).1.Running?
    ensures ReadsNext(s, events, k) && Steps(s, events) == Step(Steps(s, events[..k]).0, events[k])
    decreases |events|
  {
    hide Step;
    if events == [] {
      assert false;
    }
    var n := |events| - 1;
    assert events == events[..n] + [events[n]];
    Delivery.StepsSnoc(s, events[..n], events[n]);
    if Steps(s, events[..n]).1.Running? {
      k := n;
    } else {
      k := EndedSomewhere(s, events[..n]);
      assert events[..n][..k] == events[..k];
    }
  }

  /** Among the events of the loop one is read that is a stop. */
  ghost predicate StopRead(s: State, events: seq<Event>) {
    exists k :: 0 <= k < |events| && ReadsNext(s, events, k) && events[k].Stop?
  }

  /** One is read that raises the error. */
  ghost predicate ErrorRead(s: State, events: seq<Event>, x: Error) {
    exists k :: 0 <= k < |events| && ReadsNext(s, events, k) && Raises(Steps(s, events[..k]).0, events[k], x)
  }

  lemma LoopEnds(s: State, events: seq<Event>)
    ensures Steps(s, events).1.Stopped? <==> StopRead(s, events)
    ensures forall x :: Steps(s, events).1 == Errored(x) <==> ErrorRead(s, events, x)
  {
    hide Step;
    hide Steps;
    hide Raises;
    if !Steps(s, events).1.Running? {
      var k := EndedSomewhere(s, events);
      EventEnds(Steps(s, events[..k]).0, events[k]);
    }
    if k :| 0 <= k < |events| && ReadsNext(s, events, k) && events[k].Stop? {
      EventEnds(Steps(s, events[..k]).0, events[k]);
      EndsThere(s, events, k);
    }
    forall x | ErrorRead(s, events, x)
      ensures Steps(s, events).1 == Errored(x)
    {
      var k :| 0 <= k < |events| && ReadsNext(s, events, k) && Raises(Steps(s, events[..k]).0, events[k], x);
      EventEnds(Steps(s, events[..k]).0, events[k]);
      EndsThere(s, events, k);
    }
  }

  // ---- A turn ----

  /** The stream was asked for and started, and its first status message got through. */
  predicate Opened(at: Attempt) { at.Streamed? && at.asked.Pass? && at.started.Pass? && at.status.Pass? }

  /** The state in which the loop of an opened stream starts. */
  function Entered(s: State, fingerprint: string, at: Attempt): State
    requires at.Streamed?
  {
    SendStatus(Fresh(s, fingerprint), at.status).0
  }

  /** A stop was asked for before the turn, or while the stream was read. */
  ghost predicate AskedToStop(s: State, fingerprint: string, at: Attempt) {
    at.StopAsked? || (Opened(at) && StopRead(Entered(s, fingerprint, at), at.events))
  }

  /** The error by which the turn's connection failed. */
  ghost predicate FailedBy(s: State, fingerprint: string, at: Attempt, x: Error) {
    match at
    case StopAsked => false
    case Refused(e) => x == e
    case Streamed(asked, started, status, events) =>
      if asked.Fail? then x == asked.error
      else if started.Fail? then InvalidatedOr(started.error, x)
      else if status.Fail? then x == status.error
      else ErrorRead(Entered(s, fingerprint, at), events, x)
  }

  /** A turn that ends in an error ends by the error its connection failed by. */
  lemma StreamEnds(s: State, fingerprint: string, at: Attempt)
    requires at.Streamed?
    ensures var r := Stream(Fresh(s, fingerprint), at).1;
            && (r.Stopped? <==> AskedToStop(s, fingerprint, at))
            && (forall x :: r == Errored(x) <==> FailedBy(s, fingerprint, at, x))
            && (r.Running? ==> Opened(at))
  {
    hide StopRead;
    hide ErrorRead;
    hide Steps;
    if Opened(at) {
      LoopEnds(Entered(s, fingerprint, at), at.events);
    }
  }

  /** A turn ends for good exactly when a stop was asked for. It ends in another try exactly
      when its connection failed by an error that passes, and it halts by exactly the errors
      of the connection that do not. */
  lemma TurnEndsIff(s: State, fingerprint: string, at: Attempt)
    ensures var end := Turn(s, fingerprint, at).1;
            && (end.Finished? <==> AskedToStop(s, fingerprint, at))
            && (end.Retrying? <==> exists x :: FailedBy(s, fingerprint, at, x) && Passing(x))
            && (forall x :: end == Halted(x) <==> FailedBy(s, fingerprint, at, x) && !Passing(x))
            && (end.Streaming? ==> Opened(at))
  {
    match at
    case StopAsked =>
    case Refused(e) =>
      assert FailedBy(s, fingerprint, at, e);
    case Streamed(_, _, _, _) =>
      hide Stream;
      hide FailedBy;
      hide AskedToStop;
      StreamEnds(s, fingerprint, at);
      var r := Stream(Fresh(s, fingerprint), at).1;
      if r.Errored? {
        assert FailedBy(s, fingerprint, at, r.error);
      }
  }

  // ---- A row before its relation ----

  /** The event brings the relation message of this id. */
  ghost predicate Announces(e: Event, id: U32) {
    && e.Received? && e.msg.XLogData? && DecodeMsg(e.msg.data).Success?
    && DecodeMsg(e.msg.data).value.Relation? && DecodeMsg(e.msg.data).value.relId == id
  }

  lemma MessageRelations(s: State, m: Msg, a: Answers)
    ensures forall id | id in OnMsg(s, m, a).0.vars.rels :: id in s.vars.rels || (m.Relation? && id == m.relId)
  {
    hide WholeDelta;
    hide AddColumns;
    hide Applied;
    hide Expected;
    hide LinesOf;
    hide PlanOf;
    hide Print;
    hide TextOf;
    hide Line;
    hide LineCols;
    hide DefText;
  }

  /** A relation becomes known by its own message only. */
  lemma StepRelations(s: State, e: Event)
    ensures forall id | id in Step(s, e).0.vars.rels :: id in s.vars.rels || Announces(e, id)
  {
    hide OnMsg;
    hide DecodeMsg;
    if e.Received? && e.msg.XLogData? && DecodeMsg(e.msg.data).Success? {
      MessageRelations(s, DecodeMsg(e.msg.data).value, e.answers);
    }
  }

  lemma {:induction false} StepsRelations(s: State, events: seq<Event>, id: U32)
    requires id !in s.vars.rels && forall e | e in events :: !Announces(e, id)
    ensures id !in Steps(s, events).0.vars.rels
    decreases events
  {
    hide Step;
    hide Announces;
    if events == [] {
    } else {
      StepRelations(s, events[0]);
      if Step(s, events[0]).1.Running? {
        StepsRelations(Step(s, events[0]).0, events[1..], id);
      }
    }
  }

  /** A row change whose relation was not announced on this connection halts the replica,
      whatever was announced on connections before. */
  lemma UnannouncedRowHalts(s: State, fingerprint: string, at: Attempt, k: nat, m: Msg, id: U32)
    requires Opened(at) && ReadsNext(Entered(s, fingerprint, at), at.events, k)
    requires Delivery.Brings(at.events[k], m)
    requires (m.Insert? || m.Update? || m.Delete?) && m.relId == id
    requires forall j | 0 <= j < k :: !Announces(at.events[j], id)
    ensures Turn(s, fingerprint, at).1 == Halted(Protocol)
  {
    hide Steps;
    hide Turn;
    hide DecodeMsg;
    hide Announces;
    var s0, e := Entered(s, fingerprint, at), at.events[k];
    StepsRelations(s0, at.events[..k], id);
    assert Raises(Steps(s0, at.events[..k]).0, e, Protocol);
    assert ErrorRead(s0, at.events, Protocol);
    assert FailedBy(s, fingerprint, at, Protocol);
    TurnEndsIff(s, fingerprint, at);
  }
}
