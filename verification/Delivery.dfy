/** One upstream transaction from its bytes to the local tables: when Begin, the changes and
    Commit arrive and the server applies the script, the tables go from the upstream state
    before the transaction to the one after. */
module Delivery {
  import opened Wrappers
  import opened PgOutput
  import opened SqlText
  import opened RowChanges
  import opened Database
  import opened Fates
  import opened Fingerprint
  import opened Replication
  import opened Refinement
  import opened Identity
  import opened Upstream

  /** The fingerprint text has the line of each relation. */
  ghost predicate Knows(text: string, cat: Catalog) {
    forall id | id in cat ::
      var key := TargetOf(cat[id]);
      && key in Expected(LinesOf(text))
      && Expected(LinesOf(text))[key] == Line(key, Map(ColumnOf, cat[id].columns))
  }

  /** The event brings bytes that decode to the message. */
  ghost predicate Brings(e: Event, m: Msg) {
    e.Received? && e.msg.XLogData? && DecodeMsg(e.msg.data) == Success(m)
  }

  /** The events bring the messages, one each. */
  ghost predicate BringAll(es: seq<Event>, ms: seq<Msg>) {
    |es| == |ms| && forall i | 0 <= i < |es| :: Brings(es[i], ms[i])
  }

  /** Every relation of the catalog was announced on this connection. */
  predicate Announced(cat: Catalog, rels: map<U32, Rel>) {
    forall id | id in cat :: id in rels && rels[id] == cat[id]
  }

  predicate IsChange(m: Msg) { m.Insert? || m.Update? || m.Delete? || (m.Truncate? && m.relIds != []) }

  /** The changes reported to subscribers for a message with a text. */
  function ReportFor(cat: Catalog, m: Msg): seq<RowChange>
    requires TextFor(cat, m).Some?
  {
    if m.Truncate? then Map(TruncateOf, Targets(cat, m.relIds)) else [PlanOf(cat[RelIdOf(m)], m).value.change]
  }

  function Reports(cat: Catalog, ms: seq<Msg>): seq<RowChange>
    requires Texts(cat, ms).Some?
  {
    if ms == [] then [] else Reports(cat, ms[..|ms| - 1]) + ReportFor(cat, ms[|ms| - 1])
  }

  lemma {:induction false} StepsSnoc(s: State, es: seq<Event>, e: Event)
    ensures Steps(s, es + [e]) ==
            var (s1, r) := Steps(s, es); if r.Running? then Step(s1, e) else (s1, r)
    decreases es
  {
    hide Step;
    if es == [] {
      assert ([] + [e])[1..] == [];
    } else {
      assert (es + [e])[1..] == es[1..] + [e];
      var (s1, r) := Step(s, es[0]);
      if r.Running? {
        StepsSnoc(s1, es[1..], e);
      }
    }
  }

  /** A message with a text is buffered under that text. */
  lemma TextIsBuffered(cat: Catalog, s: State, m: Msg, a: Answers)
    requires Announced(cat, s.vars.rels) && s.vars.txn.Some? && TextFor(cat, m).Some?
    requires IsChange(m)
    ensures var (s1, r) := OnMsg(s, m, a);
            && r.Running? && s1 == WithTxn(s, s1.vars.txn) && s1.vars.txn.Some?
            && s1.vars.txn.value == Push(s.vars.txn.value, TextFor(cat, m).value, ReportFor(cat, m))
            && ReportFor(cat, m) != []
  {
    hide Print;
    if m.Truncate? {
      var targets := seq(|m.relIds|, i requires 0 <= i < |m.relIds| => TargetOf(s.vars.rels[m.relIds[i]]));
      assert targets == Targets(cat, m.relIds);
    }
  }

  /** Only the open transaction differs: it has these texts and these changes to report. */
  ghost predicate Buffering(s: State, s1: State, b: Msg, texts: seq<string>, reports: seq<RowChange>)
    requires b.Begin?
  {
    s1 == WithTxn(s, Some(TxnBuf(b.xid, b.commitTs, texts, reports)))
  }

  lemma OneMoreBuffered(cat: Catalog, s: State, s1: State, b: Msg, texts: seq<string>, reports: seq<RowChange>,
      e: Event, m: Msg)
    requires b.Begin? && Buffering(s, s1, b, texts, reports)
    requires Announced(cat, s.vars.rels) && TextFor(cat, m).Some? && Brings(e, m)
    requires IsChange(m)
    ensures Step(s1, e).1.Running? && ReportFor(cat, m) != []
    ensures Buffering(s, Step(s1, e).0, b, texts + [TextFor(cat, m).value], reports + ReportFor(cat, m))
  {
    hide ReportFor;
    hide DecodeMsg;
    hide TextFor;
    hide OnMsg;
    TextIsBuffered(cat, s1, m, e.answers);
  }

  lemma {:induction false} AnnouncedAreChanges(cat: Catalog, db: Db, changes: seq<UpChange>, ms: seq<Msg>)
    requires Legal(cat, db, changes) && Announces(cat, db, changes, ms)
    ensures forall m | m in ms :: IsChange(m)
  {
    hide Exact;
    hide Effect;
    if ms == [] {
    } else {
      var n := |ms| - 1;
      AnnouncedAreChanges(cat, db, changes[..n], ms[..n]);
      assert ms == ms[..n] + [ms[n]];
    }
  }

  /** After Begin and any number of the messages, their texts are buffered in order. */
  lemma {:induction false} MessagesAreBuffered(
      cat: Catalog, ms: seq<Msg>, s: State, begin: Event, es: seq<Event>, b: Msg)
    requires Announced(cat, s.vars.rels) && Texts(cat, ms).Some? && forall m | m in ms :: IsChange(m)
    requires b.Begin? && Brings(begin, b) && BringAll(es, ms)
    ensures Steps(s, [begin] + es).1.Running?
    ensures Buffering(s, Steps(s, [begin] + es).0, b, Texts(cat, ms).value, Reports(cat, ms))
    ensures ms != [] ==> Reports(cat, ms) != []
    decreases |ms|
  {
    hide TextFor;
    hide ReportFor;
    hide Step;
    hide Steps;
    hide Buffering;
    hide Announced;
    hide Brings;
    if ms == [] {
      BeginBuffers(s, begin, b);
      assert [begin] + es == [begin];
    } else {
      var n := |ms| - 1;
      MessagesAreBuffered(cat, ms[..n], s, begin, es[..n], b);
      assert [begin] + es == ([begin] + es[..n]) + [es[n]];
      StepsSnoc(s, [begin] + es[..n], es[n]);
      var texts, reports := Texts(cat, ms[..n]).value, Reports(cat, ms[..n]);
      OneMoreBuffered(cat, s, Steps(s, [begin] + es[..n]).0, b, texts, reports, es[n], ms[n]);
    }
  }

  lemma BeginBuffers(s: State, begin: Event, b: Msg)
    requires b.Begin? && Brings(begin, b)
    ensures Steps(s, [begin]).1.Running? && Buffering(s, Steps(s, [begin]).0, b, [], [])
  {
    hide DecodeMsg;
    assert [begin][1..] == [];
    assert Step(s, begin) == OnMsg(s, b, begin.answers);
  }

  lemma {:induction false} NoMessageNoText(cat: Catalog, ms: seq<Msg>)
    requires Texts(cat, ms).Some?
    ensures |Texts(cat, ms).value| == |ms|
  {
    hide TextFor;
    if ms == [] {
    } else {
      NoMessageNoText(cat, ms[..|ms| - 1]);
    }
  }

  /** The changes reported for a message are those it tells: one for a row, one for each
      table emptied. */
  ghost predicate Tell(cat: Catalog, ch: UpChange, m: Msg, reports: seq<RowChange>)
    requires Tells(cat, ch, m)
  {
    match ch
    case OnRow(id, c) => |reports| == 1 && ReportSays(cat[id], IdentityOf(cat[id]), c, m, reports[0])
    case Emptied(ids) =>
      && (forall id | id in ids :: id in cat) && |reports| == |ids|
      && forall i | 0 <= i < |ids| :: reports[i] == RowTruncate(TargetOf(cat[ids[i]]))
  }

  lemma MessageTells(cat: Catalog, db: Db, ch: UpChange, m: Msg)
    requires Fits(cat, db) && Applicable(cat, db, ch) && Tells(cat, ch, m)
    ensures TextFor(cat, m).Some? && Tell(cat, ch, m, ReportFor(cat, m))
  {
    hide ReportSays;
    hide Marks;
    hide Describes;
    hide Accepted;
    if ch.OnRow? {
      var rel := cat[ch.relId];
      ReportTells(rel, IdentityOf(rel), ch.change, m);
      DescribedKind(rel, IdentityOf(rel), ch.change, m);
    }
  }

  lemma DescribedKind(rel: Rel, identity: set<string>, c: Change, m: Msg)
    requires Describes(rel, identity, c, m)
    ensures m.Insert? || m.Update? || m.Delete?
  {
  }

  /** Of an announced transaction each change is told. */
  lemma {:induction false} EachChangeIsTold(cat: Catalog, db: Db, changes: seq<UpChange>, ms: seq<Msg>, k: nat)
    requires Fits(cat, db) && Legal(cat, db, changes) && Announces(cat, db, changes, ms) && k < |ms|
    ensures Tells(cat, changes[k], ms[k]) && TextFor(cat, ms[k]).Some?
    ensures Tell(cat, changes[k], ms[k], ReportFor(cat, ms[k]))
  {
    hide Fits;
    hide Tells;
    hide Exact;
    hide TextFor;
    hide ReportFor;
    hide Tell;
    hide Applicable;
    hide Effect;
    var n := |changes| - 1;
    if k == n {
      EffectsKeepFit(cat, db, changes[..n]);
      MessageTells(cat, Effects(cat, db, changes[..n]), changes[n], ms[n]);
    } else {
      EachChangeIsTold(cat, db, changes[..n], ms[..n], k);
    }
  }

  /** A commit announces its transaction once, when it is applied and has changes to report, and
      else announces nothing. */
  lemma CommitAnnounces(s: State, c: U64, end: U64, ts: I64, apply: Fate)
    ensures var t := OnCommit(s, c, end, ts, apply).0;
            if s.vars.txn.Some? && s.vars.txn.value.stmts != [] && s.vars.txn.value.changes != []
               && end > s.watermark && apply.Runs?
            then
              var buf := s.vars.txn.value;
              && |t.published| == |s.published| + 1 && s.published <= t.published
              && var p := t.published[|s.published|];
                 && p.xid == buf.xid && p.commitLsn == c && p.endLsn == end && p.changes == buf.changes
                 && (buf.commitTs != 0 ==> p.commitTs == buf.commitTs) && (buf.commitTs == 0 ==> p.commitTs == ts)
            else t.published == s.published
  {
    hide Applied;
  }

  /** The transaction is delivered whole and the server runs BEGIN, each statement, the
      watermark and COMMIT: its effect, its watermark,
      its announcement and the position to report, all at once. */
  lemma DeliveredIsApplied(cat: Catalog, s: State, txn: UpTxn, ms: seq<Msg>,
      begin: Event, es: seq<Event>, commit: Event, b: Msg, c: Msg)
    requires Fits(cat, s.store.tables) && Legal(cat, s.store.tables, txn.changes) && txn.changes != []
    requires Announces(cat, s.store.tables, txn.changes, ms) && Announced(cat, s.vars.rels)
    requires b.Begin? && Brings(begin, b) && BringAll(es, ms)
    requires c.Commit? && c.endLsn == txn.end && Brings(commit, c)
    requires AllDone(commit.answers.apply, |ms| + 3)
    requires txn.end > s.watermark
    ensures var (t, r) := Steps(s, [begin] + es + [commit]);
            && r.Running? && t.store.tables == Effects(cat, s.store.tables, txn.changes)
            && t.watermark == txn.end && t.ackPos in {s.ackPos, txn.end} && t.ackPos >= s.ackPos && t.ackPos >= txn.end
            && t.vars == s.vars.(txn := None) && t.sent == s.sent && Texts(cat, ms).Some?
            && t.published == s.published + [CommittedTransaction(
                 b.xid, c.commitLsn, txn.end, if b.commitTs != 0 then b.commitTs else c.commitTs, Reports(cat, ms))]
  {
    hide DecodeMsg;
    hide Fits;
    hide Exact;
    hide RunScript;
    TransactionRepeats(cat, s.store.tables, txn.changes, ms);
    AnnouncedAreChanges(cat, s.store.tables, txn.changes, ms);
    MessagesAreBuffered(cat, ms, s, begin, es, b);
    NoMessageNoText(cat, ms);
    EffectIffCommitted(0, |ms| + 2, commit.answers.apply);
    StepsSnoc(s, [begin] + es, commit);
  }
}
