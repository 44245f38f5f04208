/** Added columns: on the boot connection the map of fingerprint lines, the local tables and
    the persisted text stay in step. */
module Evolution {
  import opened Wrappers
  import opened PgOutput
  import opened SqlText
  import opened Database
  import opened Fates
  import opened Fingerprint
  import opened SchemaDelta
  import opened Replication

  predicate PlainName(s: string) { '|' !in s && '\n' !in s && '\r' !in s }

  predicate PlainTable(key: Target, cols: seq<Column>) {
    && PlainName(key.schema) && PlainName(key.table) && DistinctNames(cols)
    && forall c | c in cols :: PlainName(c.name)
  }

  /** The line is that of the local table. */
  ghost predicate Entry(tables: Db, k: Target, line: string) {
    k in tables && PlainTable(k, tables[k].cols) && line == Line(k, tables[k].cols)
  }

  /** The persisted text reads as the map. */
  ghost predicate TextReads(s: State) {
    s.store.meta.Some? ==> Expected(LinesOf(s.store.meta.value.fingerprint)) == s.vars.expected
  }

  ghost predicate MapAgrees(s: State) {
    TextReads(s) && forall k | k in s.vars.expected :: Entry(s.store.tables, k, s.vars.expected[k])
  }

  // ---- Lines of plain names ----

  lemma {:induction false} LineHasNo(key: Target, cols: seq<Column>, c: char)
    requires c == '\n' || c == '\r'
    requires c !in key.schema && c !in key.table && forall d | d in cols :: c !in d.name
    ensures c !in Line(key, cols)
  {
    if cols == [] {
    } else {
      LineHasNo(key, cols[..|cols| - 1], c);
      var last := cols[|cols| - 1];
      assert c !in last.name && c !in Dec(last.oid);
    }
  }

  lemma PlainLine(key: Target, cols: seq<Column>)
    requires PlainTable(key, cols)
    ensures BarFree(key, cols)
    ensures LineCols(Line(key, cols)) == cols
    ensures LineKey(Line(key, cols)) == Some(key) && '\n' !in Line(key, cols) && '\r' !in Line(key, cols)
  {
    ParseLineBack(key, cols);
    LineHasNo(key, cols, '\n');
    LineHasNo(key, cols, '\r');
  }

  lemma EntriesAreTidy(tables: Db, m: ExpectedMap)
    requires forall k | k in m :: Entry(tables, k, m[k])
    ensures Tidy(m)
  {
    forall k | k in m
      ensures LineKey(m[k]) == Some(k) && '\n' !in m[k] && '\r' !in m[k]
    {
      assert Entry(tables, k, m[k]);
      PlainLine(k, tables[k].cols);
    }
  }

  // ---- Adding columns ----

  lemma {:induction false} AddedAtTheEnd(table: Table, added: seq<Column>)
    requires DistinctNames(table.cols + added)
    ensures AddMissing(table, added, {}).cols == table.cols + added
  {
    if added == [] {
      assert table.cols + added == table.cols;
    } else {
      var n := |added| - 1;
      var all := table.cols + added;
      assert table.cols + added[..n] == all[..|all| - 1];
      AddedAtTheEnd(table, added[..n]);
      assert added[n] == all[|all| - 1];
      assert all == all[..|all| - 1] + [all[|all| - 1]];
    }
  }

  /** An additive change that went through: the table has exactly the message's columns. */
  lemma AddedReachMessage(tables: Db, key: Target, line: string, cols: seq<Column>, n: nat)
    requires Entry(tables, key, line) && PlainTable(key, cols)
    requires Classify(line, cols) == Additive(n)
    ensures n <= |cols| && AddColumns(tables, key, cols[n..])[key].cols == cols
    ensures Entry(AddColumns(tables, key, cols[n..]), key, Line(key, cols))
  {
    hide Line;
    hide LineCols;
    hide Classify;
    hide LineKey;
    hide AddMissing;
    hide PlainName;
    hide DistinctNames;
    var before := tables[key].cols;
    PlainLine(key, before);
    AdditiveMeansPrefix(key, before, cols, n);
    assert before + cols[n..] == cols;
    AddedAtTheEnd(tables[key], cols[n..]);
  }

  /** A relation message that is accepted leaves all three in step, and its table with its
      columns. */
  lemma RelationKeepsAgreement(s: State, m: Msg, a: Answers)
    requires MapAgrees(s) && m.Relation? && OnRelation(s, m, a).1.Running?
    requires PlainTable(Target(m.namespace, m.name), Map(ColumnOf, m.columns))
    ensures var s1 := OnRelation(s, m, a).0;
            var key, cols := Target(m.namespace, m.name), Map(ColumnOf, m.columns);
            && MapAgrees(s1) && s1.vars.expected.Keys == s.vars.expected.Keys
            && key in s1.vars.expected && s1.vars.expected[key] == Line(key, cols)
            && s1.store.tables[key].cols == cols
  {
    hide LinesOf;
    hide LineCols;
    var key, cols := Target(m.namespace, m.name), Map(ColumnOf, m.columns);
    var line, want := Line(key, cols), s.vars.expected[key];
    assert Entry(s.store.tables, key, want);
    if want == line {
      SameLineSameColumns(key, s.store.tables[key].cols, cols);
    } else {
      AdditiveKeepsAgreement(s, key, cols, Classify(want, cols).oldCount, a);
    }
  }

  lemma SameLineSameColumns(key: Target, a: seq<Column>, b: seq<Column>)
    requires PlainTable(key, a) && PlainTable(key, b) && Line(key, a) == Line(key, b)
    ensures a == b
  {
    PlainLine(key, a);
    PlainLine(key, b);
    ParseLineBack(key, a);
    ParseLineBack(key, b);
  }

  lemma AdditiveKeepsAgreement(s: State, key: Target, cols: seq<Column>, n: nat, a: Answers)
    requires MapAgrees(s) && key in s.vars.expected && PlainTable(key, cols)
    requires Classify(s.vars.expected[key], cols) == Additive(n)
    requires n <= |cols| && OnAdditive(s, key, Line(key, cols), cols[n..], a).1.Running?
    ensures var s1 := OnAdditive(s, key, Line(key, cols), cols[n..], a).0;
            && MapAgrees(s1) && s1.vars.expected == s.vars.expected[key := Line(key, cols)]
            && s1.store.tables[key].cols == cols
  {
    hide Line;
    hide Classify;
    hide AddMissing;
    hide PlainName;
    hide DistinctNames;
    hide LineKey;
    hide TextOf;
    hide LinesOf;
    hide LineCols;
    var added, line := cols[n..], Line(key, cols);
    var tables := AddColumns(s.store.tables, key, added);
    var expected := s.vars.expected[key := line];
    AddedReachMessage(s.store.tables, key, s.vars.expected[key], cols, n);
    assert added[..|added|] == added;
    if added == [] {
      assert added[..AlteredCount(a.alter, |added|)] == added;
    }
    forall k | k in expected
      ensures Entry(tables, k, expected[k])
    {
      if k != key {
        assert Entry(s.store.tables, k, s.vars.expected[k]);
      }
    }
    EntriesAreTidy(tables, expected);
    ReloadRebuilds(expected);
  }

  // ---- Everything else keeps the columns ----

  ghost predicate SameShape(a: Db, b: Db) {
    a.Keys == b.Keys && forall t | t in a :: a[t].cols == b[t].cols && a[t].uniques == b[t].uniques
  }

  lemma StatementsKeepColumns(db: Db, text: string)
    requires ExecText(db, text).Some?
    ensures SameShape(db, ExecText(db, text).value)
  {
    hide ParseStmt;
    hide Rewrite;
    hide Known;
    hide Distinct;
    hide Assign;
  }

  lemma {:induction false} ScriptsKeepColumns(db: Db, stmts: seq<string>)
    requires RunScript(db, stmts).Some?
    ensures SameShape(db, RunScript(db, stmts).value)
  {
    hide ExecText;
    if stmts == [] {
    } else {
      ScriptsKeepColumns(db, stmts[..|stmts| - 1]);
      StatementsKeepColumns(RunScript(db, stmts[..|stmts| - 1]).value, stmts[|stmts| - 1]);
    }
  }

  /** The same tables with the same columns, and the same persisted text. */
  ghost predicate SameSchema(a: Store, b: Store) {
    && SameShape(a.tables, b.tables) && a.meta.Some? == b.meta.Some?
    && (a.meta.Some? ==> a.meta.value.fingerprint == b.meta.value.fingerprint)
  }

  lemma AppliedKeepsSchema(store: Store, stmts: seq<string>, end: U64)
    ensures SameSchema(store, Applied(store, stmts, end))
  {
    hide SameShape;
    if RunScript(store.tables, stmts).Some? {
      ScriptsKeepColumns(store.tables, stmts);
    } else {
      SchemaReflects(store);
    }
  }

  lemma SchemaReflects(store: Store)
    ensures SameSchema(store, store)
  {
  }

  lemma SameSchemaAgrees(s: State, s1: State)
    requires MapAgrees(s) && SameSchema(s.store, s1.store) && s1.vars.expected == s.vars.expected
    ensures MapAgrees(s1)
  {
  }

  lemma CommitKeepsAgreement(s: State, c: U64, end: U64, ts: I64, apply: Fate)
    requires MapAgrees(s)
    ensures MapAgrees(OnCommit(s, c, end, ts, apply).0)
    ensures OnCommit(s, c, end, ts, apply).0.vars.expected == s.vars.expected
  {
    hide Applied;
    hide SameSchema;
    hide MapAgrees;
    SchemaReflects(s.store);
    if s.vars.txn.Some? {
      AppliedKeepsSchema(s.store, s.vars.txn.value.stmts, end);
    }
    SameSchemaAgrees(s, OnCommit(s, c, end, ts, apply).0);
  }

  /** No schema signal, and relation messages with plain names. */
  ghost predicate Plain(e: Event) {
    e.Received? && e.msg.XLogData? && DecodeMsg(e.msg.data).Success? ==>
      var m := DecodeMsg(e.msg.data).value;
      && !(m.Message? && m.prefix == DDL_SIGNAL_PREFIX)
      && (m.Relation? ==> PlainTable(Target(m.namespace, m.name), Map(ColumnOf, m.columns)))
  }

  lemma StepKeepsAgreement(s: State, e: Event)
    requires MapAgrees(s) && Plain(e) && Step(s, e).1.Running?
    ensures MapAgrees(Step(s, e).0) && Step(s, e).0.vars.expected.Keys == s.vars.expected.Keys
  {
    hide DecodeMsg;
    hide LinesOf;
    hide OnRelation;
    hide OnCommit;
    hide Entry;
    if e.Received? && e.msg.XLogData? {
      var m := DecodeMsg(e.msg.data).value;
      if m.Relation? {
        RelationKeepsAgreement(s, m, e.answers);
      } else if m.Commit? {
        CommitKeepsAgreement(s, m.commitLsn, m.endLsn, m.commitTs, ApplyFate(s, e.answers));
      }
    }
  }

  ghost predicate AllPlain(events: seq<Event>) { forall e | e in events :: Plain(e) }

  /** Over any run of the stream loop from a state in step, rows and commits included: every
      line is that of its local table, and the persisted text reads back as the map. */
  lemma {:induction false} StreamKeepsAgreement(s: State, events: seq<Event>)
    requires MapAgrees(s) && AllPlain(events) && Steps(s, events).1.Running?
    ensures MapAgrees(Steps(s, events).0) && Steps(s, events).0.vars.expected.Keys == s.vars.expected.Keys
    decreases events
  {
    hide MapAgrees;
    hide Plain;
    hide Step;
    if events == [] {
    } else {
      StepKeepsAgreement(s, events[0]);
      StreamKeepsAgreement(Step(s, events[0]).0, events[1..]);
    }
  }

  /** A relation message adds columns at the end, and only to its own table. */
  lemma RelationGrows(s: State, m: Msg, a: Answers, k: Target)
    requires MapAgrees(s) && m.Relation? && OnRelation(s, m, a).1.Running? && k in s.store.tables
    requires PlainTable(Target(m.namespace, m.name), Map(ColumnOf, m.columns))
    ensures var tables := OnRelation(s, m, a).0.store.tables; k in tables && s.store.tables[k].cols <= tables[k].cols
  {
    hide LinesOf;
    hide LineCols;
    hide Line;
    var key, cols := Target(m.namespace, m.name), Map(ColumnOf, m.columns);
    if k == key && s.vars.expected[key] != Line(key, cols) {
      assert Entry(s.store.tables, key, s.vars.expected[key]);
      PlainLine(key, s.store.tables[key].cols);
      RelationKeepsAgreement(s, m, a);
      AdditiveMeansPrefix(key, s.store.tables[key].cols, cols, Classify(s.vars.expected[key], cols).oldCount);
    }
  }

  lemma ShapeGrows(a: Db, b: Db, k: Target)
    requires SameShape(a, b) && k in a
    ensures k in b && a[k].cols <= b[k].cols
  {
  }

  lemma CommitGrows(s: State, c: U64, end: U64, ts: I64, apply: Fate, k: Target)
    requires k in s.store.tables
    ensures var tables := OnCommit(s, c, end, ts, apply).0.store.tables;
            k in tables && s.store.tables[k].cols <= tables[k].cols
  {
    hide Applied;
    hide SameShape;
    if s.vars.txn.Some? {
      AppliedKeepsSchema(s.store, s.vars.txn.value.stmts, end);
      ShapeGrows(s.store.tables, Applied(s.store, s.vars.txn.value.stmts, end).tables, k);
    }
  }

  lemma StepGrows(s: State, e: Event, k: Target)
    requires MapAgrees(s) && Plain(e) && Step(s, e).1.Running? && k in s.store.tables
    ensures var tables := Step(s, e).0.store.tables; k in tables && s.store.tables[k].cols <= tables[k].cols
  {
    hide DecodeMsg;
    hide MapAgrees;
    hide OnRelation;
    hide OnCommit;
    if e.Received? && e.msg.XLogData? {
      var m := DecodeMsg(e.msg.data).value;
      if m.Relation? {
        RelationGrows(s, m, e.answers, k);
      } else if m.Commit? {
        CommitGrows(s, m.commitLsn, m.endLsn, m.commitTs, ApplyFate(s, e.answers), k);
      }
    }
  }

  /** Over any run of the stream loop without schema signals, columns are only added, at the
      end. */
  lemma {:induction false} StreamGrows(s: State, events: seq<Event>, k: Target)
    requires MapAgrees(s) && AllPlain(events) && Steps(s, events).1.Running? && k in s.store.tables
    ensures var tables := Steps(s, events).0.store.tables; k in tables && s.store.tables[k].cols <= tables[k].cols
    decreases events
  {
    hide MapAgrees;
    hide Plain;
    hide Step;
    if events == [] {
    } else {
      StepKeepsAgreement(s, events[0]);
      StepGrows(s, events[0], k);
      StreamGrows(Step(s, events[0]).0, events[1..], k);
    }
  }

  // ---- The first text ----

  lemma OneMoreLine(lines: seq<string>, key: Target, line: string)
    requires LineKey(line) == Some(key)
    ensures Expected(lines + [line]) == Expected(lines)[key := line]
  {
  }

  lemma OneMoreDef(defs: seq<TableDef>, d: TableDef)
    requires Distinct(Map(KeyOf, defs + [d]))
    ensures Distinct(Map(KeyOf, defs)) && d.key !in KeysOf(defs)
    ensures Map(DefLine, defs + [d]) == Map(DefLine, defs) + [DefLine(d)]
    ensures KeysOf(defs + [d]) == KeysOf(defs) + {d.key}
  {
    var keys := Map(KeyOf, defs + [d]);
    assert Map(KeyOf, defs) == keys[..|defs|];
    forall i | 0 <= i < |defs|
      ensures defs[i].key != d.key
    {
      assert keys[i] != keys[|defs|];
    }
    assert forall e :: e in defs + [d] <==> e in defs || e == d;
  }

  lemma {:induction false} DefsAreExpected(defs: seq<TableDef>)
    requires Distinct(Map(KeyOf, defs)) && forall d | d in defs :: PlainTable(d.key, d.columns)
    ensures Expected(Map(DefLine, defs)).Keys == KeysOf(defs)
    ensures forall d | d in defs :: Expected(Map(DefLine, defs))[d.key] == DefLine(d)
  {
    if defs == [] {
    } else {
      var n := |defs| - 1;
      var d := defs[n];
      assert defs == defs[..n] + [d];
      OneMoreDef(defs[..n], d);
      DefsAreExpected(defs[..n]);
      PlainLine(d.key, d.columns);
      OneMoreLine(Map(DefLine, defs[..n]), d.key, DefLine(d));
      DefsStep(defs[..n], d);
    }
  }

  lemma DefsStep(defs: seq<TableDef>, d: TableDef)
    requires d.key !in KeysOf(defs)
    requires Expected(Map(DefLine, defs)).Keys == KeysOf(defs)
    requires forall e | e in defs :: Expected(Map(DefLine, defs))[e.key] == DefLine(e)
    ensures forall e | e in defs + [d] ::
      e.key in KeysOf(defs) + {d.key} && Expected(Map(DefLine, defs))[d.key := DefLine(d)][e.key] == DefLine(e)
  {
  }

  lemma DefTextReadsBack(defs: seq<TableDef>)
    requires forall d | d in defs :: PlainTable(d.key, d.columns)
    ensures LinesOf(DefText(defs)) == Map(DefLine, defs)
  {
    forall l | l in Map(DefLine, defs)
      ensures l != "" && '\n' !in l && '\r' !in l
    {
      var d :| d in defs && DefLine(d) == l;
      PlainLine(d.key, d.columns);
      KeyedLine(l);
    }
    LinesOfJoined(Map(DefLine, defs));
  }

  ghost predicate TablesOf(tables: Db, defs: seq<TableDef>) {
    && Distinct(Map(KeyOf, defs))
    && forall d | d in defs :: PlainTable(d.key, d.columns) && d.key in tables && tables[d.key].cols == d.columns
  }

  /** Tables created from an introspection and the text written for it start in step. */
  lemma FirstTextAgrees(s: State, defs: seq<TableDef>)
    requires TablesOf(s.store.tables, defs)
    requires s.store.meta.Some? && s.store.meta.value.fingerprint == DefText(defs)
    ensures MapAgrees(Fresh(s, DefText(defs))) && Fresh(s, DefText(defs)).vars.expected.Keys == KeysOf(defs)
  {
    hide LinesOf;
    DefTextReadsBack(defs);
    DefsAreExpected(defs);
    var expected := Expected(Map(DefLine, defs));
    forall k | k in expected
      ensures Entry(s.store.tables, k, expected[k])
    {
      var d :| d in defs && d.key == k;
    }
  }
}
