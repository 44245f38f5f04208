/** A running process connects again with the fingerprint text it booted with, not with the
    persisted one. After added columns this costs nothing; after a signal that dropped a column
    or published a table it halts the replica. */
module BootText {
  import opened Wrappers
  import opened PgOutput
  import opened SqlText
  import opened Database
  import opened Fingerprint
  import opened Fates
  import opened LocalDb
  import opened SchemaDelta
  import opened Replication
  import opened Delivery
  import opened Evolution
  import opened SchemaSignals

  function BootMap(boot: string): ExpectedMap { Expected(LinesOf(boot)) }

  function KeyIn(m: Msg): Target
    requires m.Relation?
  {
    Target(m.namespace, m.name)
  }

  function ColsIn(m: Msg): seq<Column>
    requires m.Relation?
  {
    Map(ColumnOf, m.columns)
  }

  /** The server adds columns and saves the text when asked to. */
  predicate Answered(a: Answers) { a.alter.Altered? && a.save.Runs? }

  lemma PlainWant(want: string, key: Target, cols: seq<Column>)
    requires PlainEntry(key, want) && PlainTable(key, cols)
    ensures want == Line(key, cols) <==> LineCols(want) == cols
  {
    hide LineCols;
    PlainLine(key, cols);
  }

  /** On a new connection a relation is accepted exactly when the boot text has its table and
      the columns of that line come first in the message. Otherwise the replica halts. */
  lemma FreshAcceptsIff(s: State, boot: string, m: Msg, a: Answers)
    requires m.Relation? && PlainTable(KeyIn(m), ColsIn(m)) && Answered(a) && PlainMap(BootMap(boot))
    ensures var (t, r) := OnRelation(Fresh(s, boot), m, a);
            if KeyIn(m) in BootMap(boot) && LineCols(BootMap(boot)[KeyIn(m)]) <= ColsIn(m) then r == Running
            else r == Errored(ReplicaHalted) && t == Fresh(s, boot)
  {
    hide LinesOf;
    hide Expected;
    hide LineCols;
    hide Line;
    hide PlainTable;
    var key := KeyIn(m);
    if key in BootMap(boot) {
      PlainWant(BootMap(boot)[key], key, ColsIn(m));
    }
  }

  // ---- After added columns only ----

  /** Each line has the first columns of its local table. */
  ghost predicate Grown(m: ExpectedMap, tables: Db) {
    forall k | k in m :: k in tables && PlainTable(k, tables[k].cols) && LineCols(m[k]) <= tables[k].cols
  }

  /** The lines of the local tables. */
  ghost function LocalLines(keys: set<Target>, tables: Db): ExpectedMap
    requires keys <= tables.Keys
  {
    map k | k in keys :: Line(k, tables[k].cols)
  }

  /** On the way back into step: the lines may be old, and the text is that of the lines or of
      the local tables. */
  ghost predicate Recovering(s: State) {
    && PlainMap(s.vars.expected) && Grown(s.vars.expected, s.store.tables) && s.store.meta.Some?
    && s.vars.expected.Keys <= s.store.tables.Keys
    && var text := Expected(LinesOf(s.store.meta.value.fingerprint));
       text == s.vars.expected || text == LocalLines(s.vars.expected.Keys, s.store.tables)
  }

  lemma {:induction false} AddHere(table: Table, added: seq<Column>)
    requires forall c | c in added :: c.name in ColNames(table.cols)
    ensures AddMissing(table, added, {}) == table
  {
    if added == [] {
    } else {
      AddHere(table, added[..|added| - 1]);
    }
  }

  lemma {:induction false} AddPresent(table: Table, added: seq<Column>, more: seq<Column>)
    requires forall c | c in added :: c.name in ColNames(table.cols)
    ensures AddMissing(table, added + more, {}) == AddMissing(table, more, {})
    decreases |more|
  {
    hide ColNames;
    hide AddColumn;
    AddHere(table, added);
    if more == [] {
      assert added + more == added;
    } else {
      var n := |more| - 1;
      assert (added + more)[..|added| + n] == added + more[..n];
      AddPresent(table, added, more[..n]);
    }
  }

  /** Columns that are there already are passed over, and the others come at the end. */
  lemma CatchUp(table: Table, cols: seq<Column>, n: nat)
    requires n <= |table.cols| && table.cols <= cols && DistinctNames(cols)
    ensures AddMissing(table, cols[n..], {}).cols == cols
    ensures table.cols == cols ==> AddMissing(table, cols[n..], {}) == table
  {
    var here, more := cols[n..|table.cols|], cols[|table.cols|..];
    assert cols[n..] == here + more && table.cols + more == cols;
    forall c | c in here
      ensures c.name in ColNames(table.cols)
    {
      assert c in table.cols;
    }
    AddPresent(table, here, more);
    AddedAtTheEnd(table, more);
  }

  /** The tables after an accepted message: its own has its columns, and nothing changes when
      it had them already. */
  ghost predicate Caught(before: Db, key: Target, cols: seq<Column>, after: Db) {
    && key in before && key in after && after == before[key := after[key]] && after[key].cols == cols
    && (before[key].cols == cols ==> after == before)
  }

  lemma AdditiveCatchesUp(s: State, key: Target, cols: seq<Column>, n: nat, a: Answers)
    requires Recovering(s) && key in s.vars.expected && PlainTable(key, cols) && Answered(a)
    requires s.store.tables[key].cols <= cols && LineCols(s.vars.expected[key]) <= cols
    requires n == |LineCols(s.vars.expected[key])| && n <= |cols|
    ensures var (t, r) := OnAdditive(s, key, Line(key, cols), cols[n..], a);
            && r.Running? && t.vars.expected == s.vars.expected[key := Line(key, cols)]
            && t.store.meta.Some? && Expected(LinesOf(t.store.meta.value.fingerprint)) == t.vars.expected
            && Caught(s.store.tables, key, cols, t.store.tables)
  {
    hide LinesOf;
    hide Expected;
    hide TextOf;
    hide Line;
    hide LineCols;
    hide AddMissing;
    hide PlainTable;
    var added := cols[n..];
    assert added[..|added|] == added;
    assert DistinctNames(cols) by { PlainDistinct(key, cols); }
    CatchUp(s.store.tables[key], cols, n);
    var expected := s.vars.expected[key := Line(key, cols)];
    PlainLine(key, cols);
    PlainIsKeyed(expected);
    ReloadRebuilds(expected);
  }

  lemma CaughtRecovers(s: State, t: State, key: Target, cols: seq<Column>)
    requires Recovering(s) && key in s.vars.expected && PlainTable(key, cols)
    requires Caught(s.store.tables, key, cols, t.store.tables) && t.store.meta.Some?
    requires t.vars.expected == s.vars.expected[key := Line(key, cols)]
    requires Expected(LinesOf(t.store.meta.value.fingerprint)) == t.vars.expected
    ensures Recovering(t)
  {
    hide LinesOf;
    hide LineCols;
    hide Expected;
    hide PlainTable;
    PlainLine(key, cols);
    forall k | k in t.vars.expected
      ensures PlainEntry(k, t.vars.expected[k])
      ensures k in t.store.tables && PlainTable(k, t.store.tables[k].cols)
      ensures LineCols(t.vars.expected[k]) <= t.store.tables[k].cols
    {
      if k != key {
        assert PlainEntry(k, s.vars.expected[k]) && t.store.tables[k] == s.store.tables[k];
      }
    }
  }

  /** A message with the local columns, or with more, is accepted. It restores the line of its
      table, adds the columns that the table lacks, and changes nothing else. */
  lemma OneRecovered(s: State, m: Msg, a: Answers)
    requires Recovering(s) && m.Relation? && Answered(a) && PlainTable(KeyIn(m), ColsIn(m))
    requires KeyIn(m) in s.vars.expected && s.store.tables[KeyIn(m)].cols <= ColsIn(m)
    ensures var (t, r) := OnRelation(s, m, a);
            && r.Running? && Recovering(t)
            && t.vars.expected == s.vars.expected[KeyIn(m) := Line(KeyIn(m), ColsIn(m))]
            && Caught(s.store.tables, KeyIn(m), ColsIn(m), t.store.tables)
  {
    hide LinesOf;
    hide LineCols;
    hide Expected;
    hide Line;
    hide PlainTable;
    hide OnAdditive;
    var key, cols := KeyIn(m), ColsIn(m);
    var want, line := s.vars.expected[key], Line(key, cols);
    PlainWant(want, key, cols);
    if want == line {
      assert s.vars.expected[key := line] == s.vars.expected;
      assert s.store.tables[key := s.store.tables[key]] == s.store.tables;
    } else {
      AdditiveCatchesUp(s, key, cols, |LineCols(want)|, a);
      CaughtRecovers(s, OnAdditive(s, key, line, cols[|LineCols(want)|..], a).0, key, cols);
    }
  }

  /** The event brings the relation of a table with the columns it has locally. */
  ghost predicate Retells(s: State, e: Event) {
    && e.Received? && e.msg.XLogData? && DecodeMsg(e.msg.data).Success? && DecodeMsg(e.msg.data).value.Relation?
    && Answered(e.answers)
    && var m := DecodeMsg(e.msg.data).value;
       KeyIn(m) in s.vars.expected && KeyIn(m) in s.store.tables && s.store.tables[KeyIn(m)].cols == ColsIn(m)
  }

  ghost predicate RetellsTable(s: State, e: Event, k: Target) {
    Retells(s, e) && KeyIn(DecodeMsg(e.msg.data).value) == k
  }

  ghost predicate RetellsAll(s: State, events: seq<Event>) {
    && (forall i | 0 <= i < |events| :: Retells(s, events[i]))
    && forall k | k in s.vars.expected :: exists i | 0 <= i < |events| :: RetellsTable(s, events[i], k)
  }

  /** The tables are as before, and the tables told have their lines again. */
  ghost predicate Told(s: State, events: seq<Event>, t: State) {
    && Recovering(t) && t.store.tables == s.store.tables && t.vars.expected.Keys == s.vars.expected.Keys
    && forall i, k | 0 <= i < |events| && RetellsTable(s, events[i], k) ::
         k in t.vars.expected && t.vars.expected[k] == Line(k, s.store.tables[k].cols)
  }

  lemma OneTold(s: State, events: seq<Event>, e: Event, t: State)
    requires Told(s, events, t) && Retells(s, e)
    ensures Step(t, e).1.Running? && Told(s, events + [e], Step(t, e).0)
  {
    hide DecodeMsg;
    hide OnRelation;
    hide Recovering;
    hide Line;
    hide PlainTable;
    var m := DecodeMsg(e.msg.data).value;
    RecoveringIsPlain(t, KeyIn(m));
    OneRecovered(t, m, e.answers);
  }

  lemma RecoveringIsPlain(t: State, k: Target)
    requires Recovering(t) && k in t.vars.expected
    ensures k in t.store.tables && PlainTable(k, t.store.tables[k].cols)
  {
  }

  lemma {:induction false} EventsTold(s: State, t: State, events: seq<Event>)
    requires Told(s, [], t) && forall i | 0 <= i < |events| :: Retells(s, events[i])
    ensures Steps(t, events).1.Running? && Told(s, events, Steps(t, events).0)
    decreases |events|
  {
    hide Step;
    hide Retells;
    hide Told;
    if events == [] {
    } else {
      var n := |events| - 1;
      EventsTold(s, t, events[..n]);
      assert events == events[..n] + [events[n]];
      StepsSnoc(t, events[..n], events[n]);
      OneTold(s, events[..n], events[n], Steps(t, events[..n]).0);
    }
  }

  lemma AgreesLocally(s: State)
    requires MapAgrees(s)
    ensures s.vars.expected.Keys <= s.store.tables.Keys
    ensures s.vars.expected == LocalLines(s.vars.expected.Keys, s.store.tables)
    ensures forall k | k in s.vars.expected :: PlainTable(k, s.store.tables[k].cols)
  {
    hide PlainTable;
    forall k | k in s.vars.expected
      ensures k in s.store.tables && s.vars.expected[k] == Line(k, s.store.tables[k].cols)
      ensures PlainTable(k, s.store.tables[k].cols)
    {
      assert Entry(s.store.tables, k, s.vars.expected[k]);
    }
  }

  /** Once every table was told, lines, tables and text agree again. */
  lemma ToldAll(s: State, events: seq<Event>, t: State)
    requires MapAgrees(s) && RetellsAll(s, events) && Told(s, events, t)
    ensures MapAgrees(t) && t.vars.expected == s.vars.expected
  {
    hide LinesOf;
    hide Expected;
    hide LineCols;
    hide Line;
    hide Retells;
    hide RetellsTable;
    hide PlainTable;
    hide PlainMap;
    hide Grown;
    AgreesLocally(s);
    forall k | k in t.vars.expected
      ensures t.vars.expected[k] == s.vars.expected[k]
    {
      var i :| 0 <= i < |events| && RetellsTable(s, events[i], k);
    }
    assert t.vars.expected == s.vars.expected;
  }

  /** When no more than columns were added since the boot, a new connection that starts from the
      boot text is back in step once every table has been announced with its columns, with no
      change to any table. */
  lemma ReconnectRecovers(s: State, boot: string, events: seq<Event>)
    requires MapAgrees(s) && s.store.meta.Some? && PlainMap(BootMap(boot))
    requires BootMap(boot).Keys == s.vars.expected.Keys && Grown(BootMap(boot), s.store.tables)
    requires RetellsAll(s, events)
    ensures var (t, r) := Steps(Fresh(s, boot), events);
            && r.Running? && MapAgrees(t) && t.vars.expected == s.vars.expected && t.store.tables == s.store.tables
  {
    hide LinesOf;
    hide Expected;
    hide LineCols;
    hide Line;
    hide Step;
    hide Steps;
    hide Retells;
    hide RetellsTable;
    hide PlainTable;
    AgreesLocally(s);
    EventsTold(s, Fresh(s, boot), events);
    ToldAll(s, events, Steps(Fresh(s, boot), events).0);
  }

  /** Which is so after any stream without schema signals from the boot on. */
  lemma AddedOnlyGrows(s: State, boot: string, events: seq<Event>)
    requires MapAgrees(Fresh(s, boot)) && AllPlain(events) && Steps(Fresh(s, boot), events).1.Running?
    ensures var t := Steps(Fresh(s, boot), events).0;
            && MapAgrees(t) && PlainMap(BootMap(boot)) && BootMap(boot).Keys == t.vars.expected.Keys
            && Grown(BootMap(boot), t.store.tables)
  {
    hide LinesOf;
    hide Expected;
    hide LineCols;
    hide Step;
    hide Steps;
    hide PlainTable;
    hide AllPlain;
    hide TextReads;
    var start := Fresh(s, boot);
    var t := Steps(start, events).0;
    StreamKeepsAgreement(start, events);
    AgreesLocally(t);
    forall k | k in BootMap(boot)
      ensures PlainEntry(k, BootMap(boot)[k])
      ensures k in t.store.tables && LineCols(BootMap(boot)[k]) <= t.store.tables[k].cols
    {
      assert Entry(start.store.tables, k, start.vars.expected[k]);
      PlainLine(k, start.store.tables[k].cols);
      StreamGrows(start, events, k);
    }
  }

  // ---- After a schema signal ----

  /** A signal was absorbed. On the same connection the new relation of a table is accepted and
      changes nothing; on a new connection it is accepted exactly when the boot text has the
      table with no column that is gone. */
  lemma SignalThenReconnect(s: State, a: Answers, boot: string, d: TableDef, m: Msg, b: Answers)
    requires InStep(s) && a.resync.Resynced? && PlainDefs(a.resync.defs) && OnDdl(s, a).1.Running?
    requires m.Relation? && d in a.resync.defs && d.key == KeyIn(m) && d.columns == ColsIn(m) && Answered(b)
    requires PlainMap(BootMap(boot))
    ensures var t := OnDdl(s, a).0;
            && OnRelation(t, m, b).1.Running? && OnRelation(t, m, b).0.store == t.store
            && OnRelation(Fresh(t, boot), m, b).1 ==
               (if KeyIn(m) in BootMap(boot) && LineCols(BootMap(boot)[KeyIn(m)]) <= ColsIn(m) then Running
                else Errored(ReplicaHalted))
  {
    hide LinesOf;
    hide Expected;
    hide LineCols;
    hide Line;
    hide OnDdl;
    hide InStep;
    hide PlainTable;
    SignalKeepsStep(s, a);
    var t := OnDdl(s, a).0;
    assert t.vars.expected[d.key] == DefLine(d);
    DefIsPlain(a.resync.defs, d);
    FreshAcceptsIff(t, boot, m, b);
  }

  lemma DefIsPlain(defs: seq<TableDef>, d: TableDef)
    requires PlainDefs(defs) && d in defs
    ensures PlainTable(d.key, d.columns)
  {
  }

  /** A table with neither primary key nor unique index. */
  function Bare(key: Target, cols: seq<Column>): TableDef { TableDef(key, cols, [], []) }

  /** The state of a process that has just connected, with one table. */
  ghost function OneTable(key: Target, cols: seq<Column>): State {
    var store := Store(map[key := NewTable(Bare(key, cols))], Some(Meta("0/1", DefText([Bare(key, cols)]))));
    Fresh(Restarted(store, 1), DefText([Bare(key, cols)]))
  }

  /** A signal that brings the table down to its first column. */
  function Shrinking(key: Target, keep: Column): Answers {
    Answers(Pass, [], Altered, Runs, Resynced([Bare(key, [keep])], {key}), Pass)
  }

  lemma OneTableOf(key: Target, cols: seq<Column>)
    requires PlainTable(key, cols)
    ensures TablesOf(OneTable(key, cols).store.tables, [Bare(key, cols)])
    ensures Fresh(OneTable(key, cols), DefText([Bare(key, cols)])) == OneTable(key, cols)
  {
    hide PlainTable;
    hide LinesOf;
    hide Expected;
    hide DefText;
  }

  lemma OneTableInStep(key: Target, cols: seq<Column>)
    requires PlainTable(key, cols)
    ensures MapAgrees(OneTable(key, cols)) && InStep(OneTable(key, cols))
    ensures OneTable(key, cols).vars.expected == map[key := Line(key, cols)]
  {
    hide LinesOf;
    hide Expected;
    hide DefText;
    hide Line;
    hide PlainTable;
    hide MapAgrees;
    hide InStep;
    var defs := [Bare(key, cols)];
    var s := OneTable(key, cols);
    OneTableOf(key, cols);
    FirstTextAgrees(s, defs);
    AgreesInStep(s);
    AgreesLocally(s);
    assert KeysOf(defs) == {key};
  }

  lemma PlainParts(key: Target, keep: Column, gone: Column)
    requires PlainTable(key, [keep, gone])
    ensures PlainTable(key, [keep]) && PlainDefs([Bare(key, [keep])]) && keep.name != gone.name
    ensures !([keep, gone] <= [keep]) && KeepsTypes([keep, gone], [keep])
  {
    var cols := [keep, gone];
    assert cols[0] == keep && cols[1] == gone && keep in cols;
    assert cols[0].name != cols[1].name;
  }

  /** The delta of that signal goes through. */
  lemma ShrinkingDelta(key: Target, keep: Column, gone: Column)
    requires PlainTable(key, [keep, gone])
    ensures var s := OneTable(key, [keep, gone]);
            WholeDelta(s.store.tables, OldOf(SortedLines(s.vars.expected)), [Bare(key, [keep])]).Some?
  {
    hide LinesOf;
    hide LineCols;
    hide WholeDelta;
    hide OldOf;
    hide SortedLines;
    hide PlainTable;
    hide Line;
    var s, defs := OneTable(key, [keep, gone]), [Bare(key, [keep])];
    PlainParts(key, keep, gone);
    PlainDistinct(key, [keep]);
    OneTableInStep(key, [keep, gone]);
    StepAgrees(s);
    OldOfMap(s.vars.expected);
    PlainLine(key, [keep, gone]);
    DeltaReachesPublication(s.store.tables, OldOf(SortedLines(s.vars.expected)), defs);
  }

  lemma ShrinkingPossible(key: Target, keep: Column, gone: Column)
    requires PlainTable(key, [keep, gone])
    ensures DdlPossible(OneTable(key, [keep, gone]), Shrinking(key, keep))
    ensures OnDdl(OneTable(key, [keep, gone]), Shrinking(key, keep)).1.Running?
  {
    hide LinesOf;
    hide Expected;
    hide WholeDelta;
    hide OldOf;
    hide SortedLines;
    hide DefText;
    ShrinkingDelta(key, keep, gone);
  }

  /** For example: a process boots with a table of two columns, and the second is dropped
      upstream. The signal is absorbed, and the next relation message goes through; but after a
      mere reconnect the same message halts the replica. */
  lemma DroppedColumnHalts(key: Target, keep: Column, gone: Column, m: Msg, b: Answers)
    requires PlainTable(key, [keep, gone])
    requires m.Relation? && KeyIn(m) == key && ColsIn(m) == [keep] && Answered(b)
    ensures var boot := DefText([Bare(key, [keep, gone])]);
            var s, a := OneTable(key, [keep, gone]), Shrinking(key, keep);
            && MapAgrees(s) && s == Fresh(s, boot)
            && OnDdl(s, a).1.Running?
            && OnRelation(OnDdl(s, a).0, m, b).1.Running?
            && OnRelation(Fresh(OnDdl(s, a).0, boot), m, b).1 == Errored(ReplicaHalted)
  {
    hide LinesOf;
    hide Expected;
    hide LineCols;
    hide OnDdl;
    hide OnRelation;
    hide MapAgrees;
    hide PlainTable;
    hide DefText;
    var boot, s, a := DefText([Bare(key, [keep, gone])]), OneTable(key, [keep, gone]), Shrinking(key, keep);
    PlainParts(key, keep, gone);
    OneTableInStep(key, [keep, gone]);
    ShrinkingPossible(key, keep, gone);
    PlainLine(key, [keep, gone]);
    assert BootMap(boot) == s.vars.expected;
    SignalThenReconnect(s, a, boot, Bare(key, [keep]), m, b);
  }
}
