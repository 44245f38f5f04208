/** Which positions are reported to the upstream: none below what is known to be applied or
    empty, and none that the upstream did not name. */
module Acknowledgement {
  import opened Wrappers
  import opened PgOutput
  import opened Fates
  import opened Replication
  import opened Reconnect

  /** A keepalive that names the position, or a commit that ends there. */
  ghost predicate Names(e: Event, x: U64) {
    && e.Received?
    && match e.msg
       case Keepalive(walEnd, _) => x == walEnd
       case XLogData(data) =>
         DecodeMsg(data).Success? && DecodeMsg(data).value.Commit? && x == DecodeMsg(data).value.endLsn
       case CopyDone => false
  }

  ghost predicate NamedIn(events: seq<Event>, x: U64) { exists i :: 0 <= i < |events| && Names(events[i], x) }

  /** The status timer and a keepalive that asks for a reply make the replica report. */
  predicate CallsForReport(e: Event) {
    match e
    case StatusDue(_) => true
    case Received(Keepalive(_, replyRequested), _) => replyRequested
    case _ => false
  }

  function Calls(events: seq<Event>): nat {
    if events == [] then 0 else (if CallsForReport(events[0]) then 1 else 0) + Calls(events[1..])
  }

  /** The positions do not fall, and a new one is one that the event names. */
  ghost predicate Moved(s: State, e: Event, t: State) {
    && s.watermark <= t.watermark && (t.watermark != s.watermark ==> Names(e, t.watermark))
    && s.ackPos <= t.ackPos && (t.ackPos != s.ackPos ==> Names(e, t.ackPos))
  }

  /** One more report, of the greater position. */
  predicate ReportsGreater(sent: seq<U64>, t: State) {
    && |t.sent| == |sent| + 1 && sent <= t.sent
    && t.sent[|sent|] in {t.watermark, t.ackPos} && t.sent[|sent|] >= t.watermark && t.sent[|sent|] >= t.ackPos
  }

  lemma StatusReports(s: State, status: Outcome)
    ensures ReportsGreater(s.sent, SendStatus(s, status).0)
  {
  }

  // ---- One event ----

  /** Outside a transaction a keepalive raises the position to report up to its own, inside one
      it does not; a reply is sent exactly when asked for. */
  lemma KeepaliveMoves(s: State, walEnd: U64, replyRequested: bool, status: Outcome)
    ensures var t := OnKeepalive(s, walEnd, replyRequested, status).0;
            && t.watermark == s.watermark && t.store == s.store && t.vars == s.vars
            && (s.vars.txn.Some? ==> t.ackPos == s.ackPos)
            && (s.vars.txn.None? ==>
                  t.ackPos in {s.ackPos, walEnd} && t.ackPos >= s.ackPos && t.ackPos >= walEnd)
            && (if replyRequested then ReportsGreater(s.sent, t) else t.sent == s.sent)
  {
  }

  /** A commit moves the positions to its end exactly when it is applied, and the position to
      report also when the transaction was empty. */
  lemma CommitMoves(s: State, c: U64, end: U64, ts: I64, apply: Fate)
    ensures var t := OnCommit(s, c, end, ts, apply).0;
            && t.sent == s.sent
            && (if s.vars.txn.None? || end <= s.watermark || (s.vars.txn.value.stmts != [] && !apply.Runs?)
                then t.watermark == s.watermark && t.ackPos == s.ackPos
                else
                  && t.watermark == (if s.vars.txn.value.stmts == [] then s.watermark else end)
                  && t.ackPos in {s.ackPos, end} && t.ackPos >= s.ackPos && t.ackPos >= end)
  {
    hide Applied;
  }

  lemma MsgMoves(s: State, data: Bytes, a: Answers)
    ensures var e := Received(XLogData(data), a); Moved(s, e, Step(s, e).0) && Step(s, e).0.sent == s.sent
  {
    hide DecodeMsg;
    hide OnMsg;
    hide OnCommit;
    hide ApplyFate;
    if DecodeMsg(data).Success? {
      var m := DecodeMsg(data).value;
      if m.Commit? {
        CommitMoves(s, m.commitLsn, m.endLsn, m.commitTs, ApplyFate(s, a));
        CommitStep(s, m, a);
      } else {
        OthersStay(s, m, a);
      }
    }
  }

  lemma CommitStep(s: State, m: Msg, a: Answers)
    requires m.Commit?
    ensures OnMsg(s, m, a) == OnCommit(s, m.commitLsn, m.endLsn, m.commitTs, ApplyFate(s, a))
  {
  }

  /** The event's report, if it calls for one, is the greater position after it. */
  lemma StepReports(s: State, e: Event)
    ensures var t := Step(s, e).0;
            && Moved(s, e, t) && (if CallsForReport(e) then ReportsGreater(s.sent, t) else t.sent == s.sent)
  {
    hide DecodeMsg;
    hide OnMsg;
    match e {
      case Received(Keepalive(walEnd, reply), a) => KeepaliveMoves(s, walEnd, reply, a.status);
      case Received(XLogData(data), a) => MsgMoves(s, data, a);
      case _ =>
    }
  }

  // ---- From then on ----

  /** The position is applied or named as done with. */
  predicate Passed(s: State, x: U64) { s.watermark >= x || s.ackPos >= x }

  /** What was passed is reported from then on, or more. */
  lemma {:induction false} PassedIsReported(s: State, x: U64, events: seq<Event>)
    requires Passed(s, x)
    ensures var t := Steps(s, events).0;
            s.sent <= t.sent && Passed(t, x) && forall i | |s.sent| <= i < |t.sent| :: t.sent[i] >= x
    decreases events
  {
    hide Step;
    if events == [] {
    } else {
      StepReports(s, events[0]);
      if Step(s, events[0]).1.Running? {
        PassedIsReported(Step(s, events[0]).0, x, events[1..]);
      }
    }
  }

  /** After a keepalive outside a transaction, every report until the connection ends is the
      keepalive's position or more, and the watermark or more; the first of them is the reply,
      if one was asked for. */
  lemma KeepaliveIsReported(s: State, walEnd: U64, replyRequested: bool, a: Answers, events: seq<Event>)
    requires s.vars.txn.None?
    ensures var t := Steps(s, [Received(Keepalive(walEnd, replyRequested), a)] + events).0;
            && (forall i | |s.sent| <= i < |t.sent| :: t.sent[i] >= walEnd && t.sent[i] >= s.watermark)
            && (replyRequested ==> |s.sent| < |t.sent|)
  {
    hide Step;
    var e := Received(Keepalive(walEnd, replyRequested), a);
    var s1 := Step(s, e).0;
    assert ([e] + events)[1..] == events;
    StepReports(s, e);
    KeepaliveStep(s, walEnd, replyRequested, a);
    if Step(s, e).1.Running? {
      PassedIsReported(s1, walEnd, events);
      PassedIsReported(s1, s.watermark, events);
    }
  }

  lemma KeepaliveStep(s: State, walEnd: U64, replyRequested: bool, a: Answers)
    requires s.vars.txn.None?
    ensures Step(s, Received(Keepalive(walEnd, replyRequested), a)).0.ackPos >= walEnd
  {
    KeepaliveMoves(s, walEnd, replyRequested, a.status);
  }

  /** After a commit whose transaction was empty or was applied, every report until the
      connection ends is its end or more, and the watermark or more. */
  lemma CommitIsReported(s: State, m: Msg, e: Event, events: seq<Event>)
    requires e.Received? && e.msg.XLogData? && DecodeMsg(e.msg.data) == Success(m) && m.Commit?
    requires s.vars.txn.Some? && (s.vars.txn.value.stmts == [] || ApplyFate(s, e.answers).Runs?)
    ensures var t := Steps(s, [e] + events).0;
            forall i | |s.sent| <= i < |t.sent| :: t.sent[i] >= m.endLsn && t.sent[i] >= s.watermark
  {
    hide Step;
    hide DecodeMsg;
    hide OnCommit;
    hide ApplyFate;
    var s1 := Step(s, e).0;
    assert ([e] + events)[1..] == events;
    StepReports(s, e);
    CommitMoves(s, m.commitLsn, m.endLsn, m.commitTs, ApplyFate(s, e.answers));
    StepIsCommit(s, m, e);
    if Step(s, e).1.Running? {
      PassedIsReported(s1, m.endLsn, events);
      PassedIsReported(s1, s.watermark, events);
    }
  }

  lemma StepIsCommit(s: State, m: Msg, e: Event)
    requires e.Received? && e.msg.XLogData? && DecodeMsg(e.msg.data) == Success(m) && m.Commit?
    ensures Step(s, e) == OnCommit(s, m.commitLsn, m.endLsn, m.commitTs, ApplyFate(s, e.answers))
  {
    hide DecodeMsg;
    hide OnCommit;
    hide ApplyFate;
  }

  // ---- Where reports come from ----

  /** Known at the start, or named by an event. */
  ghost predicate KnownFrom(s: State, events: seq<Event>, x: U64) {
    x == s.watermark || x == s.ackPos || NamedIn(events, x)
  }

  lemma KnownEarlier(s: State, e: Event, t: State, events: seq<Event>, x: U64)
    requires Moved(s, e, t) && KnownFrom(t, events, x)
    ensures KnownFrom(s, [e] + events, x)
  {
    var all := [e] + events;
    assert all[0] == e;
    if NamedIn(events, x) {
      var i :| 0 <= i < |events| && Names(events[i], x);
      assert all[i + 1] == events[i];
    }
  }

  /** Each report is the watermark or the position at the start, or one that an event has named;
      so are the positions at the end. While the connection goes on there is one report for each
      event that calls for one. */
  lemma {:induction false} ReportsComeFrom(s: State, events: seq<Event>)
    ensures var (t, r) := Steps(s, events);
            && s.sent <= t.sent && KnownFrom(s, events, t.watermark) && KnownFrom(s, events, t.ackPos)
            && (forall i | |s.sent| <= i < |t.sent| :: KnownFrom(s, events, t.sent[i]))
            && (r.Running? ==> |t.sent| == |s.sent| + Calls(events))
    decreases events
  {
    hide Step;
    hide KnownFrom;
    if events == [] {
      NothingMore(s);
    } else {
      var e, s1, rest := events[0], Step(s, events[0]).0, events[1..];
      assert events == [e] + rest;
      StepReports(s, e);
      NothingNamed(s1, rest);
      if Step(s, e).1.Running? {
        ReportsComeFrom(s1, rest);
      }
      forall x | KnownFrom(s1, rest, x)
        ensures KnownFrom(s, events, x)
      {
        KnownEarlier(s, e, s1, rest, x);
      }
      var t := Steps(s, events).0;
      forall i | |s.sent| <= i < |t.sent|
        ensures KnownFrom(s, events, t.sent[i])
      {
        if i < |s1.sent| {
          assert t.sent[i] == s1.sent[i];
        }
      }
    }
  }

  lemma NothingMore(s: State)
    ensures KnownFrom(s, [], s.watermark) && KnownFrom(s, [], s.ackPos)
  {
  }

  lemma NothingNamed(s: State, events: seq<Event>)
    ensures KnownFrom(s, events, s.watermark) && KnownFrom(s, events, s.ackPos)
  {
  }

  // ---- Any number of connections ----

  ghost predicate NamedOn(attempts: seq<Attempt>, x: U64) {
    exists i :: 0 <= i < |attempts| && attempts[i].Streamed? && NamedIn(attempts[i].events, x)
  }

  lemma StreamReports(s: State, at: Attempt)
    requires at.Streamed?
    ensures var t := Stream(s, at).0;
            && s.sent <= t.sent && KnownFrom(s, at.events, t.watermark)
            && forall i | |s.sent| <= i < |t.sent| :: KnownFrom(s, at.events, t.sent[i])
  {
    hide Steps;
    hide NamedIn;
    var s1 := SendStatus(s, at.status).0;
    StatusReports(s, at.status);
    ReportsComeFrom(s1, at.events);
    var t := Stream(s, at).0;
    forall i | |s.sent| <= i < |t.sent|
      ensures KnownFrom(s, at.events, t.sent[i])
    {
      if i < |s1.sent| {
        assert t.sent[i] == s1.sent[i];
      }
    }
  }

  lemma TurnReports(s: State, fingerprint: string, at: Attempt)
    requires s.ackPos == s.watermark
    ensures var (t, end) := Turn(s, fingerprint, at);
            && s.sent <= t.sent && (end.Retrying? ==> t.ackPos == t.watermark)
            && (t.watermark == s.watermark || NamedOn([at], t.watermark))
            && forall i | |s.sent| <= i < |t.sent| :: t.sent[i] == s.watermark || NamedOn([at], t.sent[i])
  {
    hide Stream;
    hide NamedIn;
    assert [at][0] == at;
    if at.Streamed? {
      StreamReports(Fresh(s, fingerprint), at);
    }
  }

  lemma NamedOnMore(at: Attempt, rest: seq<Attempt>, attempts: seq<Attempt>, x: U64)
    requires attempts == [at] + rest && (NamedOn([at], x) || NamedOn(rest, x))
    ensures NamedOn(attempts, x)
  {
    hide NamedIn;
    if NamedOn(rest, x) {
      var i :| 0 <= i < |rest| && rest[i].Streamed? && NamedIn(rest[i].events, x);
      assert attempts[i + 1] == rest[i];
    } else {
      assert attempts[0] == at;
    }
  }

  /** Over any number of connections every report, and the watermark, is the watermark at the
      start or a position named on one of the connections. */
  lemma {:induction false} TurnsReport(s: State, fingerprint: string, attempts: seq<Attempt>)
    requires s.ackPos == s.watermark
    ensures var t := Turns(s, fingerprint, attempts).0;
            && s.sent <= t.sent && (t.watermark == s.watermark || NamedOn(attempts, t.watermark))
            && forall i | |s.sent| <= i < |t.sent| :: t.sent[i] == s.watermark || NamedOn(attempts, t.sent[i])
    decreases attempts
  {
    hide Turn;
    hide NamedOn;
    if attempts == [] {
    } else {
      var at, rest := attempts[0], attempts[1..];
      var (s1, end) := Turn(s, fingerprint, at);
      TurnReports(s, fingerprint, at);
      if end.Retrying? {
        TurnsReport(s1, fingerprint, rest);
      }
      forall x | NamedOn([at], x) || NamedOn(rest, x)
        ensures NamedOn(attempts, x)
      {
        NamedOnMore(at, rest, attempts, x);
      }
      var t := Turns(s, fingerprint, attempts).0;
      forall i | |s.sent| <= i < |t.sent|
        ensures t.sent[i] == s.watermark || NamedOn(attempts, t.sent[i])
      {
        if i < |s1.sent| {
          assert t.sent[i] == s1.sent[i];
        }
      }
    }
  }

  /** A process that starts from the persisted position reports it and positions named to it, and
      no others. */
  lemma ProcessReports(store: Store, x: U64, fingerprint: string, attempts: seq<Attempt>)
    ensures forall y | y in Turns(Restarted(store, x), fingerprint, attempts).0.sent :: y == x || NamedOn(attempts, y)
  {
    hide Turns;
    hide NamedOn;
    TurnsReport(Restarted(store, x), fingerprint, attempts);
  }
}
