/** What a connection that ends leaves for the next one, and what is reported meanwhile. */
module Reconnect {
  import opened Wrappers
  import opened PgOutput
  import opened SqlText
  import opened RowChanges
  import opened Fates
  import opened Fingerprint
  import opened SchemaDelta
  import opened Replication

  /** Positions are only added to those reported, in ascending order, and neither the watermark
      nor the position to report falls. */
  ghost predicate Ascends(s: State, t: State) {
    && s.sent <= t.sent && s.watermark <= t.watermark && Feedback(s) <= Feedback(t)
    && (forall i | |s.sent| <= i < |t.sent| :: Feedback(s) <= t.sent[i] <= Feedback(t))
    && forall i, j | |s.sent| <= i < j < |t.sent| :: t.sent[i] <= t.sent[j]
  }

  lemma AscendsOn(s: State, t: State, u: State)
    requires Ascends(s, t) && Ascends(t, u)
    ensures Ascends(s, u)
  {
    assert forall i | 0 <= i < |t.sent| :: u.sent[i] == t.sent[i];
    forall i, j | |s.sent| <= i < j < |u.sent|
      ensures u.sent[i] <= u.sent[j]
    {
      if i < |t.sent| <= j {
        assert t.sent[i] <= Feedback(t) <= u.sent[j];
      }
    }
  }

  ghost predicate SamePositions(s: State, t: State) {
    t.sent == s.sent && t.watermark == s.watermark && t.ackPos == s.ackPos
  }

  lemma SameAscends(s: State, t: State)
    requires SamePositions(s, t)
    ensures Ascends(s, t)
  {
  }

  lemma CommitAscends(s: State, c: U64, end: U64, ts: I64, apply: Fate)
    ensures Ascends(s, OnCommit(s, c, end, ts, apply).0)
  {
    hide Applied;
  }

  /** Only a commit moves a position. */
  lemma OthersStay(s: State, m: Msg, a: Answers)
    requires !m.Commit?
    ensures SamePositions(s, OnMsg(s, m, a).0)
  {
    hide WholeDelta;
    hide AddColumns;
    hide Expected;
    hide LinesOf;
    hide PlanOf;
    hide Print;
    hide TextOf;
    hide Line;
    hide LineCols;
    hide DefText;
  }

  lemma MsgAscends(s: State, m: Msg, a: Answers)
    ensures Ascends(s, OnMsg(s, m, a).0)
  {
    hide Ascends;
    hide ApplyFate;
    hide OnCommit;
    hide OnRelation;
    hide OnDdl;
    hide OnRow;
    hide OnTruncate;
    hide SamePositions;
    if m.Commit? {
      CommitAscends(s, m.commitLsn, m.endLsn, m.commitTs, ApplyFate(s, a));
    } else {
      OthersStay(s, m, a);
      SameAscends(s, OnMsg(s, m, a).0);
    }
  }

  lemma StatusAscends(s: State, status: Outcome)
    ensures Ascends(s, SendStatus(s, status).0)
  {
  }

  lemma StepAscends(s: State, e: Event)
    ensures Ascends(s, Step(s, e).0)
  {
    hide OnMsg;
    hide DecodeMsg;
    hide Ascends;
    match e {
      case StatusDue(status) => StatusAscends(s, status);
      case Received(Keepalive(walEnd, reply), a) => KeepaliveAscends(s, walEnd, reply, a.status);
      case Received(XLogData(data), a) =>
        if DecodeMsg(data).Success? {
          MsgAscends(s, DecodeMsg(data).value, a);
        } else {
          StaysAscends(s);
        }
      case _ => StaysAscends(s);
    }
  }

  lemma StaysAscends(s: State)
    ensures Ascends(s, s)
  {
  }

  lemma KeepaliveAscends(s: State, walEnd: U64, reply: bool, status: Outcome)
    ensures Ascends(s, OnKeepalive(s, walEnd, reply, status).0)
  {
  }

  lemma {:induction false} StepsAscend(s: State, events: seq<Event>)
    ensures Ascends(s, Steps(s, events).0)
    decreases events
  {
    hide Step;
    hide Ascends;
    if events == [] {
      StaysAscends(s);
    } else {
      var (s1, r) := Step(s, events[0]);
      StepAscends(s, events[0]);
      if r.Running? {
        StepsAscend(s1, events[1..]);
        AscendsOn(s, s1, Steps(s1, events[1..]).0);
      }
    }
  }

  /** The positions reported on one connection never descend. */
  lemma StreamAscends(s: State, at: Attempt)
    requires at.Streamed?
    ensures Ascends(s, Stream(s, at).0)
  {
    hide Steps;
    hide Ascends;
    StaysAscends(s);
    StatusAscends(s, at.status);
    var s1 := SendStatus(s, at.status).0;
    StepsAscend(s1, at.events);
    AscendsOn(s, s1, Steps(s1, at.events).0);
  }

  /** After a connection that failed, the first position reported on the next one is the
      watermark: what was acknowledged beyond it is taken back. From there on the reports
      ascend, and the watermark has not fallen. */
  lemma NextConnectionReportsWatermark(s: State, fingerprint: string, first: Attempt, next: Attempt)
    requires first.Streamed? && Turn(s, fingerprint, first).1.Retrying?
    requires next.Streamed? && next.asked.Pass? && next.started.Pass?
    ensures var s1 := Turn(s, fingerprint, first).0;
            var t := Turn(s1, fingerprint, next).0;
            && |s1.sent| < |t.sent| && s1.sent <= t.sent && t.sent[|s1.sent|] == s1.watermark
            && s.watermark <= s1.watermark <= t.watermark
            && forall i, j | |s1.sent| <= i < j < |t.sent| :: t.sent[i] <= t.sent[j]
  {
    hide Steps;
    var s1 := Turn(s, fingerprint, first).0;
    assert s1.ackPos == s1.watermark;
    StreamAscends(Fresh(s, fingerprint), first);
    StreamAscends(Fresh(s1, fingerprint), next);
    StepsAscend(SendStatus(Fresh(s1, fingerprint), next.status).0, next.events);
  }

  /** Over any number of connections the watermark never falls, and no report is taken out. */
  lemma {:induction false} TurnsAscend(s: State, fingerprint: string, attempts: seq<Attempt>)
    ensures var t := Turns(s, fingerprint, attempts).0; s.watermark <= t.watermark && s.sent <= t.sent
    decreases attempts
  {
    hide Stream;
    if attempts == [] {
    } else {
      if attempts[0].Streamed? {
        StreamAscends(Fresh(s, fingerprint), attempts[0]);
      }
      var (s1, end) := Turn(s, fingerprint, attempts[0]);
      if end.Retrying? {
        TurnsAscend(s1, fingerprint, attempts[1..]);
      }
    }
  }
}
