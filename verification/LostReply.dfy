/** When a running process does not learn that its COMMIT took effect, and the upstream sends
    the transaction again. */
module LostReply {
  import opened Wrappers
  import opened PgOutput
  import opened SqlText
  import opened RowChanges
  import opened Database
  import opened Fates
  import opened Fingerprint
  import opened Replication
  import opened Upstream
  import opened Delivery
  import opened Evolution
  import Lsn

  // ---- One connection that brings one transaction ----

  /** The events of a connection: the relations are announced, then comes a transaction. */
  datatype Bringing = Bringing(rels: seq<Event>, begin: Event, changes: seq<Event>, commit: Event)

  function Stretch(d: Bringing): seq<Event> { d.rels + ([d.begin] + d.changes + [d.commit]) }

  function Connection(d: Bringing): Attempt { Streamed(Pass, Pass, Pass, Stretch(d)) }

  ghost predicate AnnouncesFrom(cat: Catalog, e: Event) {
    && e.Received? && e.msg.XLogData? && DecodeMsg(e.msg.data).Success?
    && var m := DecodeMsg(e.msg.data).value;
       m.Relation? && m.relId in cat && cat[m.relId] == Rel(m.namespace, m.name, m.columns)
  }

  ghost predicate AnnouncesAll(cat: Catalog, rels: seq<Event>) {
    && (forall i | 0 <= i < |rels| :: AnnouncesFrom(cat, rels[i]))
    && forall id | id in cat ::
         exists i | 0 <= i < |rels| :: AnnouncesFrom(cat, rels[i]) && DecodeMsg(rels[i].msg.data).value.relId == id
  }

  /** The transaction of Begin `b`, the changes `ms` and Commit `c`. */
  ghost predicate Sends(cat: Catalog, b: Msg, ms: seq<Msg>, c: Msg, d: Bringing) {
    && AnnouncesAll(cat, d.rels) && b.Begin? && Brings(d.begin, b) && BringAll(d.changes, ms)
    && c.Commit? && Brings(d.commit, c)
  }

  ghost predicate AllChanges(cat: Catalog, ms: seq<Msg>) {
    Texts(cat, ms).Some? && forall m | m in ms :: IsChange(m)
  }

  lemma SendsCommit(cat: Catalog, b: Msg, ms: seq<Msg>, c: Msg, d: Bringing)
    requires Sends(cat, b, ms, c, d)
    ensures c.Commit? && d.commit.Received?
  {
  }

  lemma {:induction false} StepsAppend(s: State, a: seq<Event>, b: seq<Event>)
    ensures Steps(s, a + b) == var (s1, r) := Steps(s, a); if r.Running? then Steps(s1, b) else (s1, r)
    decreases a
  {
    hide Step;
    if a == [] {
      assert a + b == b;
    } else {
      assert (a + b)[1..] == a[1..] + b;
      var (s1, r) := Step(s, a[0]);
      if r.Running? {
        StepsAppend(s1, a[1..], b);
      }
    }
  }

  ghost predicate HasLines(expected: ExpectedMap, cat: Catalog) {
    forall id | id in cat ::
      TargetOf(cat[id]) in expected &&
      expected[TargetOf(cat[id])] == Line(TargetOf(cat[id]), Map(ColumnOf, cat[id].columns))
  }

  lemma OneAnnounced(cat: Catalog, s: State, e: Event)
    requires HasLines(s.vars.expected, cat) && AnnouncesFrom(cat, e)
    ensures var m, (t, r) := DecodeMsg(e.msg.data).value, Step(s, e);
            r.Running? && t == s.(vars := s.vars.(rels := s.vars.rels[m.relId := cat[m.relId]]))
  {
    hide DecodeMsg;
    hide Line;
    hide Classify;
  }

  /** After the first `n` announcements only the relations known have changed. */
  ghost predicate KnownAfter(cat: Catalog, s: State, rels: seq<Event>, t: State) {
    && t == s.(vars := s.vars.(rels := t.vars.rels))
    && forall i | 0 <= i < |rels| && AnnouncesFrom(cat, rels[i]) ::
         var id := DecodeMsg(rels[i].msg.data).value.relId;
         id in cat && id in t.vars.rels && t.vars.rels[id] == cat[id]
  }

  lemma KnownNext(cat: Catalog, s: State, rels: seq<Event>, e: Event, t: State)
    requires KnownAfter(cat, s, rels, t) && AnnouncesFrom(cat, e) && HasLines(s.vars.expected, cat)
    ensures Step(t, e).1.Running? && KnownAfter(cat, s, rels + [e], Step(t, e).0)
  {
    hide DecodeMsg;
    hide Step;
    hide HasLines;
    OneAnnounced(cat, t, e);
  }

  lemma {:induction false} RelationsAreKnown(cat: Catalog, s: State, rels: seq<Event>)
    requires HasLines(s.vars.expected, cat) && forall i | 0 <= i < |rels| :: AnnouncesFrom(cat, rels[i])
    ensures Steps(s, rels).1.Running? && KnownAfter(cat, s, rels, Steps(s, rels).0)
    decreases |rels|
  {
    hide Step;
    hide AnnouncesFrom;
    hide HasLines;
    if rels == [] {
    } else {
      var n := |rels| - 1;
      RelationsAreKnown(cat, s, rels[..n]);
      assert rels == rels[..n] + [rels[n]];
      StepsSnoc(s, rels[..n], rels[n]);
      KnownNext(cat, s, rels[..n], rels[n], Steps(s, rels[..n]).0);
    }
  }

  /** The state in which the replica reads Commit. */
  ghost predicate AtCommit(s: State, b: Msg, texts: seq<string>, at: State) {
    && b.Begin? && at.store == s.store && at.watermark == s.watermark
    && at.vars.txn.Some? && at.vars.txn.value.stmts == texts
  }

  /** On a connection that brings the transaction, its texts are buffered and its commit
      decides. */
  lemma TurnCommits(cat: Catalog, s: State, text: string, b: Msg, ms: seq<Msg>, c: Msg, d: Bringing) returns (at: State)
    requires Knows(text, cat) && Sends(cat, b, ms, c, d)
    requires AllChanges(cat, ms)
    ensures AtCommit(s, b, Texts(cat, ms).value, at)
    ensures Stream(Fresh(s, text), Connection(d)) ==
            OnCommit(at, c.commitLsn, c.endLsn, c.commitTs, FateOf(|ms| + 2, d.commit.answers.apply))
  {
    hide DecodeMsg;
    hide Step;
    hide Steps;
    hide TextFor;
    hide ReportFor;
    hide AnnouncesFrom;
    hide OnCommit;
    hide LinesOf;
    hide Expected;
    hide Line;
    var s0 := SendStatus(Fresh(s, text), Pass).0;
    RelationsAreKnown(cat, s0, d.rels);
    var s1 := Steps(s0, d.rels).0;
    AllKnown(cat, s0, d.rels, s1);
    MessagesAreBuffered(cat, ms, s1, d.begin, d.changes, b);
    NoMessageNoText(cat, ms);
    at := Steps(s1, [d.begin] + d.changes).0;
    StepsAppend(s0, d.rels, [d.begin] + d.changes + [d.commit]);
    StepsSnoc(s1, [d.begin] + d.changes, d.commit);
    CommitStep(at, d.commit, c);
  }

  lemma AllKnown(cat: Catalog, s: State, rels: seq<Event>, t: State)
    requires AnnouncesAll(cat, rels) && KnownAfter(cat, s, rels, t)
    ensures Announced(cat, t.vars.rels)
  {
    hide DecodeMsg;
    hide AnnouncesFrom;
  }

  lemma CommitStep(at: State, commit: Event, c: Msg)
    requires Brings(commit, c) && c.Commit? && at.vars.txn.Some?
    ensures Step(at, commit) == OnCommit(at, c.commitLsn, c.endLsn, c.commitTs,
                                         FateOf(|at.vars.txn.value.stmts| + 2, commit.answers.apply))
  {
    hide DecodeMsg;
    hide OnCommit;
  }

  // ---- The script again ----

  lemma ShapeDecides(a: Db, b: Db, s: Stmt)
    requires SameShape(a, b) && Unchecked(a, s).Some?
    ensures Unchecked(b, s).Some?
  {
    hide Rewrite;
    hide Assign;
    hide Database.Distinct;
    hide Zip;
    hide Cleared;
  }

  lemma ShapesMeet(a: Db, b: Db, a1: Db, b1: Db)
    requires SameShape(a, b) && SameShape(a, a1) && SameShape(b, b1)
    ensures SameShape(a1, b1)
  {
  }

  /** The statement puts a row beside one it clashes with. */
  ghost predicate TextCollides(db: Db, text: string) {
    ParseStmt(text).Some? && Collides(db, ParseStmt(text).value)
  }

  /** A statement that runs on some tables is refused by others of their shape only for rows that
      clash. */
  lemma RefusedIffCollides(a: Db, b: Db, text: string)
    requires SameShape(a, b) && ExecText(a, text).Some?
    ensures ExecText(b, text).None? <==> TextCollides(b, text)
    ensures ExecText(b, text).Some? ==> SameShape(ExecText(a, text).value, ExecText(b, text).value)
  {
    hide ParseStmt;
    hide SameShape;
    hide Unchecked;
    hide Collides;
    ShapeDecides(a, b, ParseStmt(text).value);
    StatementsKeepColumns(a, text);
    if ExecText(b, text).Some? {
      StatementsKeepColumns(b, text);
      ShapesMeet(a, b, ExecText(a, text).value, ExecText(b, text).value);
    }
  }

  /** Some statement of the script, after those before it, puts a row beside one it clashes
      with. */
  ghost predicate CollidesSomewhere(db: Db, stmts: seq<string>) {
    exists k | 0 <= k < |stmts| :: CollidesAt(db, stmts, k)
  }

  ghost predicate CollidesAt(db: Db, stmts: seq<string>, k: nat)
    requires k < |stmts|
  {
    RunScript(db, stmts[..k]).Some? && TextCollides(RunScript(db, stmts[..k]).value, stmts[k])
  }

  lemma CollidesFront(db: Db, stmts: seq<string>, n: nat)
    requires n + 1 == |stmts|
    ensures CollidesSomewhere(db, stmts) <==> CollidesSomewhere(db, stmts[..n]) || CollidesAt(db, stmts, n)
  {
    hide RunScript;
    hide TextCollides;
    assert forall k | 0 <= k < n :: stmts[..n][..k] == stmts[..k];
    assert forall k | 0 <= k < n :: CollidesAt(db, stmts[..n], k) == CollidesAt(db, stmts, k);
    if CollidesSomewhere(db, stmts) {
      var k :| 0 <= k < |stmts| && CollidesAt(db, stmts, k);
      if k < n {
        assert CollidesAt(db, stmts[..n], k);
      }
    }
    if CollidesSomewhere(db, stmts[..n]) {
      var k :| 0 <= k < n && CollidesAt(db, stmts[..n], k);
      assert CollidesAt(db, stmts, k);
    }
  }

  /** A script that ran once is refused on tables of the same shape exactly when one of its
      statements meets a row with its key. */
  lemma {:induction false} RefusedIff(a: Db, b: Db, stmts: seq<string>)
    requires SameShape(a, b) && RunScript(a, stmts).Some?
    ensures RunScript(b, stmts).None? <==> CollidesSomewhere(b, stmts)
    ensures RunScript(b, stmts).Some? ==> SameShape(RunScript(a, stmts).value, RunScript(b, stmts).value)
  {
    hide ExecText;
    hide SameShape;
    hide TextCollides;
    if stmts == [] {
    } else {
      var n := |stmts| - 1;
      RefusedIff(a, b, stmts[..n]);
      CollidesFront(b, stmts, n);
      if RunScript(b, stmts[..n]).Some? {
        RefusedIffCollides(RunScript(a, stmts[..n]).value, RunScript(b, stmts[..n]).value, stmts[n]);
      }
    }
  }

  // ---- A willing server ----

  lemma {:induction false} FirstOnesRan(db: Db, stmts: seq<string>, k: nat)
    requires k <= |stmts| && RunScript(db, stmts).Some?
    ensures RunScript(db, stmts[..k]).Some?
    decreases |stmts|
  {
    hide ExecText;
    if k == |stmts| {
      assert stmts[..k] == stmts;
    } else {
      FirstOnesRan(db, stmts[..|stmts| - 1], k);
      assert stmts[..|stmts| - 1][..k] == stmts[..k];
    }
  }

  /** The server refuses nothing that it can run, and rows that clash with their error. */
  ghost predicate Willing(db: Db, stmts: seq<string>, replies: seq<Reply>) {
    && ReplyAt(replies, 0).Done?
    && (forall k | 0 <= k < |stmts| && RunScript(db, stmts[..k]).Some? ::
          ReplyAt(replies, k + 1) ==
          if RunScript(db, stmts[..k + 1]).Some? then Reply.Done else Reply.Refused(UNIQUE_VIOLATION))
    && ReplyAt(replies, |stmts| + 1).Done? && ReplyAt(replies, |stmts| + 2).Done?
  }

  lemma {:induction false} FirstRefused(db: Db, stmts: seq<string>) returns (k: nat)
    requires RunScript(db, stmts).None?
    ensures k < |stmts| && RunScript(db, stmts[..k]).Some? && RunScript(db, stmts[..k + 1]).None?
  {
    hide ExecText;
    var n := |stmts| - 1;
    if RunScript(db, stmts[..n]).Some? {
      assert stmts[..n + 1] == stmts;
      k := n;
    } else {
      k := FirstRefused(db, stmts[..n]);
      assert stmts[..n][..k] == stmts[..k] && stmts[..n][..k + 1] == stmts[..k + 1];
    }
  }

  lemma DoneSoFar(db: Db, stmts: seq<string>, replies: seq<Reply>, n: nat)
    requires n <= |stmts| && Willing(db, stmts, replies) && RunScript(db, stmts[..n]).Some?
    ensures AllDone(replies, n + 1)
  {
    hide RunScript;
    forall k | 0 < k < n + 1
      ensures ReplyAt(replies, k).Done?
    {
      assert stmts[..n][..k] == stmts[..k] && stmts[..n][..k - 1] == stmts[..k - 1];
      FirstOnesRan(db, stmts[..n], k);
      FirstOnesRan(db, stmts[..n], k - 1);
    }
  }

  /** Then the script decides: it runs, or its first clash refuses the transaction. */
  lemma WillingFate(db: Db, stmts: seq<string>, replies: seq<Reply>)
    requires Willing(db, stmts, replies)
    ensures FateOf(|stmts| + 2, replies) ==
            if RunScript(db, stmts).Some? then Runs else Rejected(UNIQUE_VIOLATION)
  {
    hide RunScript;
    if RunScript(db, stmts).Some? {
      assert stmts[..|stmts|] == stmts;
      DoneSoFar(db, stmts, replies, |stmts|);
      EffectIffCommitted(0, |stmts| + 2, replies);
    } else {
      var k := FirstRefused(db, stmts);
      DoneSoFar(db, stmts, replies, k);
      FailsBefore(k + 1, |stmts| + 2, replies);
    }
  }

  /** A commit that the server runs leaves the tables as they are exactly when the transaction
      is skipped, or its script, an empty one included, makes no other tables. */
  lemma CommitChangesNothingIff(s: State, c: U64, end: U64, ts: I64)
    requires s.vars.txn.Some?
    ensures OnCommit(s, c, end, ts, Runs).0.store.tables == s.store.tables <==>
            end <= s.watermark || RunScript(s.store.tables, s.vars.txn.value.stmts) in {None, Some(s.store.tables)}
  {
    hide ExecText;
  }

  /** Every command was done, and the connection broke with COMMIT in effect. */
  predicate LosesCommit(replies: seq<Reply>, n: nat) { AllDone(replies, n) && ReplyAt(replies, n) == Broken(Io, true) }

  lemma FirstTime(cat: Catalog, s: State, text: string, b: Msg, ms: seq<Msg>, c: Msg, d: Bringing)
    requires Knows(text, cat) && Sends(cat, b, ms, c, d) && ms != []
    requires AllChanges(cat, ms)
    requires s.watermark < c.endLsn && s.store.meta.Some? && LosesCommit(d.commit.answers.apply, |ms| + 2)
    requires RunScript(s.store.tables, Texts(cat, ms).value).Some?
    ensures var (t, end) := Turn(s, text, Connection(d));
            && end == Retrying && t.watermark == s.watermark
            && t.store == WithWatermark(
                 s.store.(tables := RunScript(s.store.tables, Texts(cat, ms).value).value), c.endLsn)
  {
    hide Stream;
    hide RunScript;
    hide Texts;
    hide Knows;
    hide Sends;
    hide IsChange;
    hide Lsn.ToPgStr;
    SendsCommit(cat, b, ms, c, d);
    var at := TurnCommits(cat, s, text, b, ms, c, d);
    NoMessageNoText(cat, ms);
    CommitDecides(|ms| + 2, d.commit.answers.apply);
  }

  /** A later delivery runs the script on the tables there are, halts the replica with nothing
      changed when rows clash, or skips the transaction. */
  lemma LaterTime(cat: Catalog, s: State, text: string, b: Msg, ms: seq<Msg>, c: Msg, d: Bringing)
    requires Knows(text, cat) && Sends(cat, b, ms, c, d) && ms != []
    requires AllChanges(cat, ms)
    requires Willing(s.store.tables, Texts(cat, ms).value, d.commit.answers.apply)
    ensures var (t, end) := Turn(s, text, Connection(d));
            var after := RunScript(s.store.tables, Texts(cat, ms).value);
            if c.endLsn <= s.watermark then end == Streaming && t.store == s.store && t.watermark == s.watermark
            else if after.Some? then end == Streaming && t.store.tables == after.value && t.watermark == c.endLsn
            else end == Halted(UNIQUE_VIOLATION) && t.store == s.store && t.watermark == s.watermark
  {
    hide Stream;
    hide RunScript;
    hide Texts;
    hide Lsn.ToPgStr;
    hide DecodeMsg;
    hide IsChange;
    hide AnnouncesAll;
    hide Willing;
    hide FateOf;
    var at := TurnCommits(cat, s, text, b, ms, c, d);
    NoMessageNoText(cat, ms);
    WillingFate(s.store.tables, Texts(cat, ms).value, d.commit.answers.apply);
  }

  /** The store after the transaction took effect once. */
  ghost function OnceApplied(s: State, script: seq<string>, end: U64): Store
    requires RunScript(s.store.tables, script).Some?
  {
    WithWatermark(s.store.(tables := RunScript(s.store.tables, script).value), end)
  }

  /** The reply to the COMMIT of any transaction is lost in an I/O error. The store then has its
      effect and its watermark, and the thread connects again with the old watermark. When the
      upstream sends the transaction again, that connection runs its script a second time. If a
      statement meets a row with its key, the replica halts with the store as it was; otherwise
      the script has its effect twice. A process that was restarted skips it in either case. */
  lemma RedeliveredTransaction(cat: Catalog, s: State, text: string, b: Msg, ms: seq<Msg>, c: Msg,
      first: Bringing, again: Bringing)
    requires Knows(text, cat) && s.store.meta.Some? && Knows(s.store.meta.value.fingerprint, cat)
    requires Sends(cat, b, ms, c, first) && Sends(cat, b, ms, c, again) && ms != []
    requires AllChanges(cat, ms)
    requires s.watermark < c.endLsn && RunScript(s.store.tables, Texts(cat, ms).value).Some?
    requires LosesCommit(first.commit.answers.apply, |ms| + 2)
    requires Willing(RunScript(s.store.tables, Texts(cat, ms).value).value, Texts(cat, ms).value,
                     again.commit.answers.apply)
    ensures var script := Texts(cat, ms).value;
            var once := OnceApplied(s, script, c.endLsn);
            var (t, end) := Turn(s, text, Connection(first));
            && end == Retrying && t.watermark == s.watermark && t.store == once
            && once.meta.Some? && Lsn.FromPgStr(once.meta.value.watermark) == Success(c.endLsn)
            && var (u, second) := Turn(t, text, Connection(again));
               var (v, restarted) := Turn(Restarted(once, c.endLsn), once.meta.value.fingerprint, Connection(again));
               && (CollidesSomewhere(once.tables, script) ==> second == Halted(UNIQUE_VIOLATION) && u.store == once)
               && (!CollidesSomewhere(once.tables, script) ==>
                     && second == Streaming && RunScript(once.tables, script).Some?
                     && u.store.tables == RunScript(once.tables, script).value)
               && restarted == Streaming && v.store == once
  {
    hide Stream;
    hide Turn;
    hide RunScript;
    hide Texts;
    hide Knows;
    hide Sends;
    hide IsChange;
    hide Willing;
    hide CollidesSomewhere;
    hide Lsn.ToPgStr;
    hide Lsn.FromPgStr;
    hide SameShape;
    SendsCommit(cat, b, ms, c, first);
    SendsCommit(cat, b, ms, c, again);
    var script := Texts(cat, ms).value;
    FirstTime(cat, s, text, b, ms, c, first);
    Lsn.RoundTrip(c.endLsn);
    var t, once := Turn(s, text, Connection(first)).0, RunScript(s.store.tables, script).value;
    ScriptsKeepColumns(s.store.tables, script);
    RefusedIff(s.store.tables, once, script);
    LaterTime(cat, t, text, b, ms, c, again);
    LaterTime(cat, Restarted(t.store, c.endLsn), t.store.meta.value.fingerprint, b, ms, c, again);
  }

  // ---- One statement again ----

  lemma EditTwice(rows: multiset<Row>, e: Edit)
    requires e.SetWhere? || e.DeleteWhere?
    ensures Rewrite(Rewrite(rows, e), e) == Rewrite(rows, e)
  {
    forall y | y in Rewrite(rows, e)
      ensures EditRow(e, y) == Some(y)
    {
      RewriteImage(rows, e, y);
      var x :| x in rows && EditRow(e, x) == Some(y);
      if e.SetWhere? && Selects(e.conds, x) {
        AssignTwice(x, e.sets);
      }
    }
    RewriteFixed(Rewrite(rows, e), e);
  }

  lemma EditTableTwice(db: Db, t: Target, e: Edit)
    requires t in db && (e.SetWhere? || e.DeleteWhere?)
    ensures var once := db[t := db[t].(rows := Rewrite(db[t].rows, e))];
            once[t := once[t].(rows := Rewrite(once[t].rows, e))] == once
  {
    hide Rewrite;
    EditTwice(db[t].rows, e);
  }

  /** The row that an INSERT adds. */
  function InsertedRow(db: Db, s: Stmt): Row
    requires s.InsertRow? && s.target in db && |s.cols| == |s.vals|
  {
    Assign(NullRow(db[s.target]), Zip(s.cols, s.vals))
  }

  /** The row has a key: a second one like it clashes with it. */
  predicate HasKey(table: Table, row: Row) { exists u :: u in table.uniques && Clash(u, row, row) }

  lemma MoreOf(rows: multiset<Row>, row: Row)
    ensures var once := rows + multiset{row};
            var twice := once + multiset{row};
            && twice[row] == once[row] + 1 >= 2 && twice != once && |twice| == |once| + 1
            && (forall x | x in twice :: x in once) && (forall x | x != row :: twice[x] == once[x])
  {
  }

  /** A second row like one of the table is taken exactly when the row has no key. */
  lemma TwinTakenIff(table: Table, row: Row)
    requires ClashFree(table.(rows := table.rows + multiset{row}))
    ensures ClashFree(table.(rows := table.rows + multiset{row} + multiset{row})) <==> !HasKey(table, row)
  {
    hide Clash;
    MoreOf(table.rows, row);
    var once := table.rows + multiset{row};
    var twice := once + multiset{row};
    if !HasKey(table, row) {
      forall u, a, b | u in table.uniques && a in twice && b in twice && Clash(u, a, b)
        ensures a == b && twice[a] == 1
      {
        assert Free(once, u);
      }
    } else {
      var u :| u in table.uniques && Clash(u, row, row);
      assert !Free(twice, u);
    }
  }

  lemma InsertAgain(db: Db, s: Stmt)
    requires s.InsertRow? && ExecStmt(db, s).Some?
    ensures var once := ExecStmt(db, s).value;
            && s.target in db && |s.cols| == |s.vals| && s.target in once
            && var row := InsertedRow(db, s);
               && (Collides(once, s) <==> HasKey(db[s.target], row))
               && (!Collides(once, s) ==>
                     && ExecStmt(once, s).Some? && s.target in ExecStmt(once, s).value
                     && ExecStmt(once, s).value[s.target].rows == once[s.target].rows + multiset{row})
  {
    hide Assign;
    hide ClashFree;
    TwinTakenIff(db[s.target], InsertedRow(db, s));
  }

  lemma EditAgain(db: Db, s: Stmt)
    requires !s.InsertRow? && ExecStmt(db, s).Some?
    ensures !Collides(ExecStmt(db, s).value, s) && ExecStmt(ExecStmt(db, s).value, s) == ExecStmt(db, s)
  {
    hide Rewrite;
    hide ClashFree;
    match s {
      case UpdateRows(t, sets, conds) => EditTableTwice(db, t, SetWhere(conds, sets));
      case DeleteRows(t, conds) => EditTableTwice(db, t, DeleteWhere(conds));
      case TruncateTables(ts) => assert Cleared(Cleared(db, ts), ts) == Cleared(db, ts);
    }
  }

  /** One statement, run again on what it made. An INSERT is refused exactly when its row has a
      key, and otherwise its row is there once more. Any other statement leaves it as it is. */
  lemma OneStatementAgain(db: Db, text: string)
    requires ExecText(db, text).Some?
    ensures var once, s := ExecText(db, text).value, ParseStmt(text).value;
            if s.InsertRow? then
              && s.target in db && |s.cols| == |s.vals| && s.target in once
              && var row := InsertedRow(db, s);
                 if HasKey(db[s.target], row) then TextCollides(once, text)
                 else
                   && ExecText(once, text).Some? && s.target in ExecText(once, text).value
                   && ExecText(once, text).value[s.target].rows == once[s.target].rows + multiset{row}
            else ExecText(once, text) == Some(once)
  {
    hide ParseStmt;
    hide Unchecked;
    hide Collides;
    hide HasKey;
    var s := ParseStmt(text).value;
    if s.InsertRow? {
      InsertAgain(db, s);
    } else {
      EditAgain(db, s);
    }
  }

  /** So a script of one INSERT that is delivered again collides exactly when its row has a
      key. */
  lemma InsertCollidesIff(db: Db, text: string)
    requires ExecText(db, text).Some? && ParseStmt(text).value.InsertRow?
    ensures var once, s := ExecText(db, text).value, ParseStmt(text).value;
            && s.target in db && |s.cols| == |s.vals|
            && (CollidesSomewhere(once, [text]) <==> HasKey(db[s.target], InsertedRow(db, s)))
  {
    hide ParseStmt;
    hide Unchecked;
    hide HasKey;
    hide Collides;
    InsertAgain(db, ParseStmt(text).value);
    var once := ExecText(db, text).value;
    assert [text][..0] == [] && RunScript(once, []) == Some(once);
    assert CollidesAt(once, [text], 0) <==> TextCollides(once, text);
  }

  // ---- Tables with keys ----

  ghost predicate AllClashFree(db: Db) { forall t | t in db :: ClashFree(db[t]) }

  lemma {:induction false} DeleteLeaves(rows: multiset<Row>, conds: seq<Cond>)
    ensures Rewrite(rows, DeleteWhere(conds)) <= rows
    decreases |rows|
  {
    if rows == multiset{} {
    } else {
      var x := Pick(rows);
      DeleteLeaves(rows - multiset{x}, conds);
      RewriteStep(rows, DeleteWhere(conds));
      assert rows - multiset{x} + multiset{x} == rows;
    }
  }

  lemma FewerRows(table: Table, rows: multiset<Row>)
    requires ClashFree(table) && rows <= table.rows
    ensures ClashFree(table.(rows := rows))
  {
    hide Clash;
    forall u, a, b | u in table.uniques && a in rows && b in rows && Clash(u, a, b)
      ensures a == b && rows[a] == 1
    {
      assert Free(table.rows, u);
    }
  }

  lemma StatementKeepsKeys(db: Db, text: string)
    requires AllClashFree(db) && ExecText(db, text).Some?
    ensures AllClashFree(ExecText(db, text).value)
  {
    hide ParseStmt;
    hide Rewrite;
    hide Assign;
    hide ClashFree;
    var s := ParseStmt(text).value;
    match s {
      case DeleteRows(t, conds) =>
        DeleteLeaves(db[t].rows, conds);
        FewerRows(db[t], Rewrite(db[t].rows, DeleteWhere(conds)));
      case TruncateTables(ts) =>
        forall t | t in db
          ensures ClashFree(db[t].(rows := multiset{}))
        {
          FewerRows(db[t], multiset{});
        }
      case _ =>
    }
  }

  /** No script makes rows that clash, so a row with a key is there once at most, however often
      its transaction is delivered. */
  lemma {:induction false} KeyedRowsStaySingle(db: Db, stmts: seq<string>, t: Target, row: Row)
    requires AllClashFree(db) && RunScript(db, stmts).Some?
    ensures AllClashFree(RunScript(db, stmts).value)
    ensures var after := RunScript(db, stmts).value;
            t in after && HasKey(after[t], row) ==> after[t].rows[row] <= 1
    decreases |stmts|
  {
    hide ExecText;
    hide Clash;
    if stmts == [] {
    } else {
      var n := |stmts| - 1;
      KeyedRowsStaySingle(db, stmts[..n], t, row);
      StatementKeepsKeys(RunScript(db, stmts[..n]).value, stmts[n]);
    }
  }

  // ---- A key that changes ----

  function T(): Target { Target("public", "t") }

  /** A table of one column, its key. */
  function Keyed(rows: multiset<Row>): Db { map[T() := Table([Column("k", 25)], {Unique({"k"}, true)}, rows)] }

  function One(text: string): Row { map["k" := Some(text)] }

  /** The transaction gives the row 1 the key 2, and inserts another row 1. */
  function Rekey(): Stmt { UpdateRows(T(), [("k", Some("2"))], [Equals("k", "1")]) }

  function InsertOne(): Stmt { InsertRow(T(), ["k"], [Some("1")]) }

  lemma KeysFree()
    ensures One("1") != One("2")
    ensures ClashFree(Keyed(multiset{One("1")})[T()]) && ClashFree(Keyed(multiset{One("2")})[T()])
    ensures ClashFree(Keyed(multiset{One("2"), One("1")})[T()])
    ensures !ClashFree(Keyed(multiset{One("2"), One("2")})[T()])
  {
    assert One("1")["k"] != One("2")["k"];
    assert Clash(Unique({"k"}, true), One("2"), One("2"));
  }

  function RekeyEdit(): Edit { SetWhere(Rekey().conds, Rekey().sets) }

  lemma RekeyRow()
    ensures EditRow(RekeyEdit(), One("1")) == Some(One("2")) && EditRow(RekeyEdit(), One("2")) == Some(One("2"))
  {
    var e := RekeyEdit();
    assert One("1")["k" := Some("2")] == One("2");
    assert e.sets[..0] == [] && Assign(One("1"), e.sets) == One("2");
    assert e.conds[0] in e.conds && !Holds(One("2"), e.conds[0]) && Holds(One("1"), e.conds[0]);
  }

  lemma RewriteOne(row: Row, e: Edit)
    ensures Rewrite(multiset{row}, e) == Bag(EditRow(e, row))
  {
    hide EditRow;
    RewriteAdd(multiset{}, row, e);
    assert multiset{} + multiset{row} == multiset{row};
    assert multiset{} + Bag(EditRow(e, row)) == Bag(EditRow(e, row));
  }

  lemma RewriteTwo(a: Row, b: Row, e: Edit)
    ensures Rewrite(multiset{a, b}, e) == Bag(EditRow(e, a)) + Bag(EditRow(e, b))
  {
    hide EditRow;
    RewriteOne(a, e);
    RewriteAdd(multiset{a}, b, e);
    assert multiset{a} + multiset{b} == multiset{a, b};
  }

  lemma RekeyRows()
    ensures Rewrite(multiset{One("1")}, RekeyEdit()) == multiset{One("2")}
    ensures Rewrite(multiset{One("2"), One("1")}, RekeyEdit()) == multiset{One("2"), One("2")}
  {
    hide Rewrite;
    hide EditRow;
    hide One;
    RekeyRow();
    RewriteOne(One("1"), RekeyEdit());
    RewriteTwo(One("2"), One("1"), RekeyEdit());
  }

  lemma KeyColumn()
    ensures ColNames([Column("k", 25)]) == {"k"}
  {
    var cols := [Column("k", 25)];
    assert cols[0] in cols;
  }

  /** An UPDATE of the key is the edit, unless rows clash. */
  lemma RekeyRuns(rows: multiset<Row>)
    ensures Unchecked(Keyed(rows), Rekey()) == Some(Keyed(Rewrite(rows, RekeyEdit())))
  {
    hide Rewrite;
    KeyColumn();
    assert Map(NameOf, Rekey().sets) == ["k"] && Map(CondCol, Rekey().conds) == ["k"];
    var after := Rewrite(rows, RekeyEdit());
    assert Keyed(rows)[T() := Keyed(rows)[T()].(rows := after)] == Keyed(after);
  }

  lemma OnlyColumn(rows: multiset<Row>)
    ensures var table := Keyed(rows)[T()];
            ColNames(table.cols) == {"k"} && Known(table, ["k"]) && NullRow(table) == map["k" := None]
  {
    KeyColumn();
  }

  lemma OnePair()
    ensures Zip(["k"], [Some("1")]) == [("k", Some("1"))]
    ensures Assign(map["k" := None], [("k", Some("1"))]) == One("1")
  {
    var pairs: ColPairs := [("k", Some("1"))];
    assert pairs[..0] == [];
  }

  lemma InsertOneRuns(rows: multiset<Row>)
    ensures Unchecked(Keyed(rows), InsertOne()) == Some(Keyed(rows + multiset{One("1")}))
  {
    hide Known;
    hide NullRow;
    hide Assign;
    hide Zip;
    hide One;
    OnlyColumn(rows);
    OnePair();
    var more := rows + multiset{One("1")};
    assert Keyed(rows)[T() := Keyed(rows)[T()].(rows := more)] == Keyed(more);
  }

  lemma RekeySteps()
    ensures ExecStmt(Keyed(multiset{One("1")}), Rekey()) == Some(Keyed(multiset{One("2")}))
    ensures ExecStmt(Keyed(multiset{One("2")}), InsertOne()) == Some(Keyed(multiset{One("2"), One("1")}))
    ensures Collides(Keyed(multiset{One("2"), One("1")}), Rekey())
  {
    hide ClashFree;
    hide Rewrite;
    hide Unchecked;
    hide One;
    KeysFree();
    RekeyRows();
    RekeyRuns(multiset{One("1")});
    RekeyRuns(multiset{One("2"), One("1")});
    InsertOneRuns(multiset{One("2")});
    assert multiset{One("2")} + multiset{One("1")} == multiset{One("2"), One("1")};
  }

  /** So it is not only an INSERT that is refused: delivered again, this transaction stops at its
      UPDATE. */
  lemma KeyChangeCollides()
    ensures var db, script := Keyed(multiset{One("1")}), [Print(Rekey()), Print(InsertOne())];
            && ClashFree(db[T()]) && RunScript(db, script) == Some(Keyed(multiset{One("2"), One("1")}))
            && CollidesSomewhere(Keyed(multiset{One("2"), One("1")}), script)
  {
    hide ClashFree;
    hide ParseStmt;
    hide Print;
    hide ExecStmt;
    hide Collides;
    KeysFree();
    RekeySteps();
    ParseInvertsPrint(Rekey());
    ParseInvertsPrint(InsertOne());
    var db, once := Keyed(multiset{One("1")}), Keyed(multiset{One("2"), One("1")});
    var first, second := Print(Rekey()), Print(InsertOne());
    assert [first, second] == [] + [first] + [second] && [first, second][..0] == [];
    RunScriptSnoc(db, [], first);
    RunScriptSnoc(db, [] + [first], second);
    assert CollidesAt(once, [first, second], 0);
  }
}
