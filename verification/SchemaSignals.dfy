/** Schema signals (`resync_schema`): over any stream, signals included, every line says the
    columns of its local table, in some order, and the persisted text reads as the lines. */
module SchemaSignals {
  import opened Wrappers
  import opened PgOutput
  import opened SqlText
  import opened RowChanges
  import opened Database
  import opened Fingerprint
  import opened Fates
  import opened SchemaDelta
  import opened Replication
  import opened ExpectedLines
  import opened Evolution

  /** The line is one of plain names. */
  predicate PlainEntry(k: Target, line: string) { PlainTable(k, LineCols(line)) && line == Line(k, LineCols(line)) }

  predicate PlainMap(m: ExpectedMap) { forall k | k in m :: PlainEntry(k, m[k]) }

  /** The local table has the columns of the line, in some order. */
  ghost predicate Described(tables: Db, k: Target, line: string) {
    PlainEntry(k, line) && k in tables && ColSet(tables[k].cols) == ColSet(LineCols(line))
  }

  ghost predicate InStep(s: State) {
    TextReads(s) && forall k | k in s.vars.expected :: Described(s.store.tables, k, s.vars.expected[k])
  }

  /** Agreement in order is agreement. */
  lemma AgreesInStep(s: State)
    requires MapAgrees(s)
    ensures InStep(s)
  {
    hide LineCols;
    forall k | k in s.vars.expected
      ensures Described(s.store.tables, k, s.vars.expected[k])
    {
      assert Entry(s.store.tables, k, s.vars.expected[k]);
      PlainLine(k, s.store.tables[k].cols);
    }
  }

  lemma PlainIsKeyed(m: ExpectedMap)
    requires PlainMap(m)
    ensures Keyed(m) && Tidy(m)
  {
    hide LineCols;
    forall k | k in m
      ensures LineKey(m[k]) == Some(k) && '\n' !in m[k] && '\r' !in m[k]
    {
      PlainLine(k, LineCols(m[k]));
    }
  }

  // ---- A schema signal ----

  ghost predicate PlainDefs(defs: seq<TableDef>) {
    Distinct(Map(KeyOf, defs)) && forall d | d in defs :: PlainTable(d.key, d.columns)
  }

  /** The old tables that the delta starts from are those of the map. */
  lemma OldOfMap(m: ExpectedMap)
    requires PlainMap(m)
    ensures OldOf(SortedLines(m)).Keys == m.Keys
    ensures forall k | k in m :: OldOf(SortedLines(m))[k] == LineCols(m[k])
  {
    hide LineCols;
    hide LineKey;
    PlainIsKeyed(m);
    SortedAreValues(m);
    SortedHas(m);
    OldOfGathers(SortedLines(m), m);
    forall k | k in m
      ensures m[k] in SortedLines(m)
    {
      assert m[k] in m.Values;
    }
  }

  lemma StepAgrees(s: State)
    requires InStep(s)
    ensures PlainMap(s.vars.expected) && Agrees(s.store.tables, OldOf(SortedLines(s.vars.expected)))
  {
    hide LineCols;
    hide ColSet;
    OldOfMap(s.vars.expected);
    forall t | t in OldOf(SortedLines(s.vars.expected))
      ensures var prior := OldOf(SortedLines(s.vars.expected))[t];
              t in s.store.tables && DistinctNames(prior) && ColSet(s.store.tables[t].cols) == ColSet(prior)
    {
      assert Described(s.store.tables, t, s.vars.expected[t]);
    }
  }

  /** The map has the lines of the definitions and no others. */
  ghost predicate MapOf(m: ExpectedMap, defs: seq<TableDef>) {
    m.Keys == KeysOf(defs) && forall d | d in defs :: m[d.key] == DefLine(d)
  }

  lemma NewMap(defs: seq<TableDef>)
    requires PlainDefs(defs)
    ensures MapOf(Expected(LinesOf(DefText(defs))), defs)
  {
    hide LinesOf;
    DefTextReadsBack(defs);
    DefsAreExpected(defs);
  }

  lemma SameMembers(a: seq<string>, b: seq<string>)
    requires multiset(a) == multiset(b)
    ensures forall l :: l in a <==> l in b
  {
    forall l
      ensures l in a <==> l in b
    {
      assert l in a <==> l in multiset(a);
      assert l in b <==> l in multiset(b);
    }
  }

  /** Every value of the map is found in its sorted lines under its own key. */
  lemma LineIn(m: ExpectedMap, key: Target, cols: seq<Column>)
    requires PlainMap(m) && PlainTable(key, cols) && Line(key, cols) in SortedLines(m)
    ensures key in m && m[key] == Line(key, cols)
  {
    hide LineCols;
    hide LineKey;
    hide SortedLines;
    PlainIsKeyed(m);
    SortedAreValues(m);
    PlainLine(key, cols);
  }

  /** The same lines as before: the map is the one of the definitions already. */
  lemma SameMap(m: ExpectedMap, defs: seq<TableDef>)
    requires PlainMap(m) && PlainDefs(defs) && multiset(LinesOf(DefText(defs))) == multiset(SortedLines(m))
    ensures MapOf(m, defs)
  {
    hide LinesOf;
    hide LineCols;
    hide LineKey;
    hide SortedLines;
    hide Line;
    hide PlainTable;
    PlainIsKeyed(m);
    DefTextReadsBack(defs);
    SortedHas(m);
    var lines := Map(DefLine, defs);
    SameMembers(lines, SortedLines(m));
    forall d | d in defs
      ensures d.key in m && m[d.key] == DefLine(d)
    {
      assert DefLine(d) in lines;
      LineIn(m, d.key, d.columns);
    }
    forall k | k in m
      ensures k in KeysOf(defs)
    {
      assert m[k] in m.Values && m[k] in lines;
      var d :| d in defs && DefLine(d) == m[k];
      PlainLine(d.key, d.columns);
    }
  }

  lemma DefsDescribe(tables: Db, m: ExpectedMap, defs: seq<TableDef>)
    requires PlainDefs(defs) && MapOf(m, defs)
    requires forall d | d in defs :: d.key in tables && ColSet(tables[d.key].cols) == ColSet(d.columns)
    ensures forall k | k in m :: Described(tables, k, m[k])
  {
    hide LineCols;
    forall k | k in m
      ensures Described(tables, k, m[k])
    {
      var d :| d in defs && d.key == k;
      PlainLine(d.key, d.columns);
    }
  }

  /** The tables of the signal's delta, from a state in step. */
  lemma DeltaFits(s: State, defs: seq<TableDef>)
    requires InStep(s) && PlainDefs(defs)
    requires WholeDelta(s.store.tables, OldOf(SortedLines(s.vars.expected)), defs).Some?
    ensures var after := WholeDelta(s.store.tables, OldOf(SortedLines(s.vars.expected)), defs).value;
            && after.Keys == s.store.tables.Keys - s.vars.expected.Keys + KeysOf(defs)
            && (forall d | d in defs :: ColSet(after[d.key].cols) == ColSet(d.columns))
            && (forall t | t in s.store.tables && t !in s.vars.expected && t !in KeysOf(defs) ::
                  after[t] == s.store.tables[t])
  {
    hide WholeDelta;
    hide InStep;
    hide ColSet;
    StepAgrees(s);
    OldOfMap(s.vars.expected);
    DeltaReachesPublication(s.store.tables, OldOf(SortedLines(s.vars.expected)), defs);
  }

  lemma FitsDescribe(tables: Db, m: ExpectedMap, defs: seq<TableDef>, others: set<Target>)
    requires PlainDefs(defs) && MapOf(m, defs) && tables.Keys == others + KeysOf(defs)
    requires forall d | d in defs :: ColSet(tables[d.key].cols) == ColSet(d.columns)
    ensures forall k | k in m :: Described(tables, k, m[k])
  {
    hide ColSet;
    DefsDescribe(tables, m, defs);
  }

  ghost predicate SameLines(s: State, defs: seq<TableDef>) {
    multiset(LinesOf(DefText(defs))) == multiset(SortedLines(s.vars.expected))
  }

  /** What an absorbed signal leaves. */
  lemma SignalLeaves(s: State, a: Answers)
    requires OnDdl(s, a).1.Running?
    ensures a.resync.Resynced?
    ensures WholeDelta(s.store.tables, OldOf(SortedLines(s.vars.expected)), a.resync.defs)
            == Some(OnDdl(s, a).0.store.tables)
    ensures var t, text := OnDdl(s, a).0, DefText(a.resync.defs);
            && (SameLines(s, a.resync.defs) ==> t.vars == s.vars && t.store.meta == s.store.meta)
            && (!SameLines(s, a.resync.defs) ==>
                  && t.vars.expected == Expected(LinesOf(text))
                  && (t.store.meta.Some? ==> t.store.meta.value.fingerprint == text))
  {
    hide WholeDelta;
    hide LinesOf;
    hide Expected;
  }

  /** A signal that is absorbed leaves the introspected tables, and no others, in the map, with
      their columns locally and their lines in the text; tables that were never published are
      untouched. */
  lemma SignalKeepsStep(s: State, a: Answers)
    requires InStep(s) && a.resync.Resynced? && PlainDefs(a.resync.defs) && OnDdl(s, a).1.Running?
    ensures var t, defs := OnDdl(s, a).0, a.resync.defs;
            && InStep(t) && MapOf(t.vars.expected, defs)
            && t.store.tables.Keys == s.store.tables.Keys - s.vars.expected.Keys + KeysOf(defs)
            && forall k | k in s.store.tables && k !in s.vars.expected && k !in KeysOf(defs) ::
                 t.store.tables[k] == s.store.tables[k]
  {
    hide WholeDelta;
    hide LinesOf;
    hide Expected;
    hide Described;
    hide ColSet;
    hide DefText;
    hide MapOf;
    hide PlainDefs;
    hide OnDdl;
    hide OldOf;
    StepAgrees(s);
    SignalLeaves(s, a);
    var t, defs := OnDdl(s, a).0, a.resync.defs;
    DeltaFits(s, defs);
    if SameLines(s, defs) {
      SameMap(s.vars.expected, defs);
    } else {
      NewMap(defs);
    }
    FitsDescribe(t.store.tables, t.vars.expected, defs, s.store.tables.Keys - s.vars.expected.Keys);
  }

  /** The state row keeps its watermark. */
  predicate SameMark(a: Store, b: Store) {
    (a.meta.Some? <==> b.meta.Some?) && (a.meta.Some? ==> b.meta.value.watermark == a.meta.value.watermark)
  }

  /** A signal leaves the relations announced on this connection as they are, except that those
      of tables no longer published are forgotten when the lines are new. The open transaction,
      the positions and the watermark of the state row are untouched. */
  lemma SignalLeavesRelations(s: State, a: Answers)
    requires OnDdl(s, a).1.Running?
    ensures var t := OnDdl(s, a).0;
            && a.resync.Resynced? && t.vars.txn == s.vars.txn && SameMark(s.store, t.store)
            && t.watermark == s.watermark && t.ackPos == s.ackPos && t.sent == s.sent && t.published == s.published
            && (forall id | id in t.vars.rels :: id in s.vars.rels && t.vars.rels[id] == s.vars.rels[id])
            && (forall id | id in s.vars.rels ::
                  SameLines(s, a.resync.defs) || TargetOf(s.vars.rels[id]) in t.vars.expected <==> id in t.vars.rels)
  {
    hide WholeDelta;
    hide LinesOf;
    hide Expected;
    hide DefText;
  }

  /** A relation stays known exactly when its table is among the introspected ones, or the
      lines are as before. */
  lemma PublishedRelationsStay(s: State, a: Answers, id: U32)
    requires InStep(s) && a.resync.Resynced? && PlainDefs(a.resync.defs) && OnDdl(s, a).1.Running?
    requires id in s.vars.rels
    ensures var t, defs := OnDdl(s, a).0, a.resync.defs;
            && (id in t.vars.rels <==>
                  SameLines(s, defs) || exists d | d in defs :: d.key == TargetOf(s.vars.rels[id]))
            && (id in t.vars.rels ==> t.vars.rels[id] == s.vars.rels[id])
  {
    hide OnDdl;
    hide InStep;
    hide PlainDefs;
    hide SameLines;
    SignalLeavesRelations(s, a);
    SignalKeepsStep(s, a);
  }

  // ---- Relation messages ----

  lemma {:induction false} AddedSet(table: Table, added: seq<Column>)
    requires DistinctNames(added) && forall c | c in added :: c.name !in ColNames(table.cols)
    ensures ColSet(AddMissing(table, added, {}).cols) == ColSet(table.cols) + ColSet(added)
  {
    hide Rewrite;
    if added == [] {
    } else {
      var n := |added| - 1;
      var before := AddMissing(table, added[..n], {});
      assert added == added[..n] + [added[n]];
      AddedSet(table, added[..n]);
      forall d | d in before.cols
        ensures d.name != added[n].name
      {
        assert d in ColSet(before.cols);
      }
    }
  }

  lemma DistinctParts(a: seq<Column>, b: seq<Column>)
    requires DistinctNames(a + b)
    ensures DistinctNames(b) && forall c | c in b :: c.name !in ColNames(a)
  {
    var all := a + b;
    forall i, j | 0 <= i < j < |b|
      ensures b[i].name != b[j].name
    {
      assert all[|a| + i].name != all[|a| + j].name;
    }
    forall c | c in b
      ensures c.name !in ColNames(a)
    {
      var j :| 0 <= j < |b| && b[j] == c;
      forall d | d in a
        ensures d.name != c.name
      {
        var i :| 0 <= i < |a| && a[i] == d;
        assert all[i].name != all[|a| + j].name;
      }
    }
  }

  lemma SetOfParts(a: seq<Column>, b: seq<Column>)
    ensures ColSet(a + b) == ColSet(a) + ColSet(b)
  {
  }

  lemma PlainDistinct(key: Target, cols: seq<Column>)
    requires PlainTable(key, cols)
    ensures DistinctNames(cols)
  {
  }

  /** An additive change gives the table the columns of the message. */
  lemma AddedDescribed(tables: Db, key: Target, line: string, cols: seq<Column>, n: nat)
    requires Described(tables, key, line) && PlainTable(key, cols) && Classify(line, cols) == Additive(n)
    ensures n <= |cols| && Described(AddColumns(tables, key, cols[n..]), key, Line(key, cols))
  {
    hide LineCols;
    hide PlainTable;
    hide DistinctNames;
    hide ColNames;
    hide AddMissing;
    hide ColSet;
    var prior := LineCols(line);
    assert cols == prior + cols[n..];
    PlainDistinct(key, cols);
    DistinctParts(prior, cols[n..]);
    NamesOfSet(prior, tables[key].cols);
    AddedSet(tables[key], cols[n..]);
    SetOfParts(prior, cols[n..]);
    PlainLine(key, cols);
  }

  lemma AdditiveKeepsStep(s: State, key: Target, cols: seq<Column>, n: nat, a: Answers)
    requires InStep(s) && key in s.vars.expected && PlainTable(key, cols)
    requires Classify(s.vars.expected[key], cols) == Additive(n)
    requires n <= |cols| && OnAdditive(s, key, Line(key, cols), cols[n..], a).1.Running?
    ensures var t := OnAdditive(s, key, Line(key, cols), cols[n..], a).0;
            && InStep(t) && t.vars.expected == s.vars.expected[key := Line(key, cols)]
            && t.vars == s.vars.(expected := t.vars.expected)
  {
    hide LinesOf;
    hide LineCols;
    hide AddMissing;
    hide ColSet;
    hide PlainTable;
    var added, line := cols[n..], Line(key, cols);
    var tables := AddColumns(s.store.tables, key, added);
    var expected := s.vars.expected[key := line];
    assert Described(s.store.tables, key, s.vars.expected[key]);
    AddedDescribed(s.store.tables, key, s.vars.expected[key], cols, n);
    assert added[..|added|] == added;
    if added == [] {
      assert added[..AlteredCount(a.alter, |added|)] == added;
    }
    forall k | k in expected
      ensures Described(tables, k, expected[k])
    {
      if k != key {
        assert Described(s.store.tables, k, s.vars.expected[k]);
      }
    }
    PlainIsKeyed(expected);
    ReloadRebuilds(expected);
  }

  lemma RelationKeepsStep(s: State, m: Msg, a: Answers)
    requires InStep(s) && m.Relation? && OnRelation(s, m, a).1.Running?
    requires PlainTable(Target(m.namespace, m.name), Map(ColumnOf, m.columns))
    ensures InStep(OnRelation(s, m, a).0)
  {
    hide LinesOf;
    hide LineCols;
    hide Line;
    hide OnAdditive;
    hide Described;
    var key, cols := Target(m.namespace, m.name), Map(ColumnOf, m.columns);
    var line, want := Line(key, cols), s.vars.expected[key];
    if want != line {
      AdditiveKeepsStep(s, key, cols, Classify(want, cols).oldCount, a);
    }
  }

  // ---- Any stream ----

  /** Plain names in what is introspected and announced. */
  ghost predicate PlainNames(e: Event) {
    e.Received? && e.msg.XLogData? && DecodeMsg(e.msg.data).Success? ==>
      var m := DecodeMsg(e.msg.data).value;
      && (m.Message? && m.prefix == DDL_SIGNAL_PREFIX && e.answers.resync.Resynced? ==>
            PlainDefs(e.answers.resync.defs))
      && (m.Relation? ==> PlainTable(Target(m.namespace, m.name), Map(ColumnOf, m.columns)))
  }

  lemma SameSchemaKeepsStep(s: State, t: State)
    requires InStep(s) && SameSchema(s.store, t.store) && t.vars.expected == s.vars.expected
    ensures InStep(t)
  {
    hide PlainEntry;
    hide ColSet;
    forall k | k in t.vars.expected
      ensures Described(t.store.tables, k, t.vars.expected[k])
    {
      assert Described(s.store.tables, k, s.vars.expected[k]);
    }
  }

  lemma CommitKeepsStep(s: State, c: U64, end: U64, ts: I64, apply: Fate)
    requires InStep(s)
    ensures InStep(OnCommit(s, c, end, ts, apply).0)
  {
    hide Applied;
    hide SameSchema;
    hide InStep;
    SchemaReflects(s.store);
    if s.vars.txn.Some? {
      AppliedKeepsSchema(s.store, s.vars.txn.value.stmts, end);
    }
    SameSchemaKeepsStep(s, OnCommit(s, c, end, ts, apply).0);
  }

  lemma EventKeepsStep(s: State, e: Event)
    requires InStep(s) && PlainNames(e) && Step(s, e).1.Running?
    ensures InStep(Step(s, e).0)
  {
    hide DecodeMsg;
    hide LinesOf;
    hide OnRelation;
    hide OnCommit;
    hide OnDdl;
    hide Described;
    hide PlainDefs;
    hide PlainTable;
    if e.Received? && e.msg.XLogData? {
      var m := DecodeMsg(e.msg.data).value;
      match m {
        case Relation(_, _, _, _, _) => RelationKeepsStep(s, m, e.answers);
        case Commit(c, end, ts) => CommitKeepsStep(s, c, end, ts, ApplyFate(s, e.answers));
        case Message(prefix, _) =>
          if prefix == DDL_SIGNAL_PREFIX {
            SignalLeaves(s, e.answers);
            SignalKeepsStep(s, e.answers);
          }
        case _ =>
      }
    }
  }

  ghost predicate AllPlainNames(events: seq<Event>) { forall e | e in events :: PlainNames(e) }

  /** Over any run of the stream loop, commits, added columns and schema signals included. */
  lemma {:induction false} StreamKeepsStep(s: State, events: seq<Event>)
    requires InStep(s) && AllPlainNames(events) && Steps(s, events).1.Running?
    ensures InStep(Steps(s, events).0)
    decreases events
  {
    hide InStep;
    hide PlainNames;
    hide Step;
    if events == [] {
    } else {
      EventKeepsStep(s, events[0]);
      StreamKeepsStep(Step(s, events[0]).0, events[1..]);
    }
  }

  // ---- A signal inside a transaction ----

  /** The columns that a row statement names. */
  function NamedIn(s: Stmt): seq<string> {
    match s
    case InsertRow(_, cols, _) => cols
    case UpdateRows(_, sets, conds) => Map(NameOf, sets) + Map(CondCol, conds)
    case DeleteRows(_, conds) => Map(CondCol, conds)
    case TruncateTables(_) => []
  }

  /** The statement names a table or a column that is not there. */
  ghost predicate NamesMissing(db: Db, text: string) {
    ParseStmt(text).Some? && !ParseStmt(text).value.TruncateTables? &&
    var s := ParseStmt(text).value;
    s.target !in db || exists n | n in NamedIn(s) :: n !in ColNames(db[s.target].cols)
  }

  lemma MissingFails(db: Db, text: string)
    requires NamesMissing(db, text)
    ensures ExecText(db, text).None?
  {
    hide ParseStmt;
    hide Rewrite;
    hide Assign;
    hide ClashFree;
    hide Database.Distinct;
    hide ColNames;
  }

  lemma MissingElsewhere(a: Db, b: Db, text: string)
    requires SameShape(a, b) && NamesMissing(a, text)
    ensures NamesMissing(b, text)
  {
    hide ParseStmt;
    hide ColNames;
  }

  lemma {:induction false} ScriptStuck(db: Db, stmts: seq<string>, k: nat)
    requires k < |stmts| && NamesMissing(db, stmts[k])
    ensures RunScript(db, stmts).None?
    decreases |stmts|
  {
    hide ExecText;
    hide NamesMissing;
    hide SameShape;
    var n := |stmts| - 1;
    if k < n {
      ScriptStuck(db, stmts[..n], k);
    } else if RunScript(db, stmts[..n]).Some? {
      ScriptsKeepColumns(db, stmts[..n]);
      MissingElsewhere(db, RunScript(db, stmts[..n]).value, stmts[n]);
      MissingFails(RunScript(db, stmts[..n]).value, stmts[n]);
    }
  }

  /** What was buffered stays buffered over a signal. */
  lemma SignalKeepsBuffer(s: State, a: Answers)
    ensures OnDdl(s, a).0.vars.txn == s.vars.txn && OnDdl(s, a).0.watermark == s.watermark
  {
    hide WholeDelta;
    hide LinesOf;
    hide Expected;
  }

  /** A script that cannot run is rejected by every answer that the server can give. */
  lemma StuckIsRejected(s: State, m: Msg, a: Answers)
    requires m.Commit? && s.vars.txn.Some? && m.endLsn > s.watermark && s.vars.txn.value.stmts != []
    requires RunScript(s.store.tables, s.vars.txn.value.stmts).None? && CommitPossible(s, m.endLsn, a.apply)
    ensures ApplyFate(s, a).Rejected? && OnMsg(s, m, a).0.store == s.store
    ensures OnMsg(s, m, a).1 == Errored(ApplyFate(s, a).error)
  {
    hide RunScript;
    var stmts := s.vars.txn.value.stmts;
    assert stmts[..|stmts|] == stmts;
    EffectIffCommitted(0, |stmts| + 2, a.apply);
  }

  /** A schema signal inside a transaction takes the columns away at once, outside of it. When
      one of them is named by a statement buffered before, the transaction is rejected at its
      COMMIT, whatever the server answers, and on an error of the statement the replica halts. */
  lemma SignalInTransaction(s: State, a: Answers, m: Msg, b: Answers, k: nat)
    requires s.vars.txn.Some? && k < |s.vars.txn.value.stmts| && m.Commit? && m.endLsn > s.watermark
    requires NamesMissing(OnDdl(s, a).0.store.tables, s.vars.txn.value.stmts[k])
    requires CommitPossible(OnDdl(s, a).0, m.endLsn, b.apply)
    ensures var t := OnDdl(s, a).0;
            var (u, r) := OnMsg(t, m, b);
            && t.vars.txn == s.vars.txn && u.store == t.store && r.Errored?
            && (r.error.Database? && r.error.sqlstate == "42703" ==> Leave(u, r.error).1 == Halted(r.error))
  {
    hide OnDdl;
    hide OnMsg;
    hide NamesMissing;
    hide CommitPossible;
    SignalKeepsBuffer(s, a);
    var t := OnDdl(s, a).0;
    ScriptStuck(t.store.tables, s.vars.txn.value.stmts, k);
    StuckIsRejected(t, m, b);
  }
}
