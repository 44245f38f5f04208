/** The local side of a first run (`first_run`, `bootstrap_schema` and `copy_tables` in
    `crates/pglite/src/replica`): every published table is dropped, created and filled, one
    statement at a time, whatever an earlier attempt left. */
module FirstRun {
  import opened Wrappers
  import opened PgOutput
  import opened SqlText
  import opened Database
  import opened Fates
  import opened LocalDb
  import opened SchemaDelta
  import opened CopyTables

  /** The COPY data of each table, as it arrives. */
  type Chunks = map<Target, seq<Bytes>>

  function ChunksOf(chunks: Chunks, t: Target): seq<Bytes> { if t in chunks then chunks[t] else [] }

  function BootScript(defs: seq<TableDef>): seq<TableStmt> {
    if defs == [] then []
    else
      var d := defs[|defs| - 1];
      BootScript(defs[..|defs| - 1]) + RemakeScript(d)
  }

  function TableLoads(d: TableDef, chunks: Chunks): seq<TableStmt> {
    Loads(d.key, BatchesOf(ChunksOf(chunks, d.key)))
  }

  function CopyScript(defs: seq<TableDef>, chunks: Chunks): seq<TableStmt> {
    if defs == [] then []
    else CopyScript(defs[..|defs| - 1], chunks) + TableLoads(defs[|defs| - 1], chunks)
  }

  /** All tables are made before the first is filled. */
  function Script(defs: seq<TableDef>, chunks: Chunks): seq<TableStmt> { BootScript(defs) + CopyScript(defs, chunks) }

  // ---- What the script leaves ----

  /** The tables of the definitions are these, and no other table is touched. */
  ghost predicate Remade(before: Db, now: Db, defs: seq<TableDef>) {
    && now.Keys == before.Keys + KeysOf(defs)
    && forall t | t in before && t !in KeysOf(defs) :: now[t] == before[t]
  }

  lemma BootMore(defs: seq<TableDef>, d: TableDef)
    ensures BootScript(defs + [d]) == BootScript(defs) + RemakeScript(d)
    ensures KeysOf(defs + [d]) == KeysOf(defs) + {d.key}
  {
    assert (defs + [d])[..|defs|] == defs;
    assert forall e :: e in defs + [d] <==> e in defs || e == d;
  }

  ghost predicate Blank(now: Db, defs: seq<TableDef>) {
    forall d | d in defs :: d.key in now && now[d.key] == NewTable(d)
  }

  /** One more table made or filled. */
  lemma RemadeNext(before: Db, now: Db, rest: seq<TableDef>, d: TableDef, table: Table)
    requires Remade(before, now, rest) && d.key !in KeysOf(rest)
    ensures Remade(before, now[d.key := table], rest + [d])
  {
    hide KeysOf;
    BootMore(rest, d);
  }

  lemma BlankNext(now: Db, rest: seq<TableDef>, d: TableDef)
    requires Blank(now, rest) && d.key !in KeysOf(rest)
    ensures Blank(now[d.key := NewTable(d)], rest + [d])
  {
    hide NewTable;
    var all, after := rest + [d], now[d.key := NewTable(d)];
    forall e | e in all
      ensures e.key in after && after[e.key] == NewTable(e)
    {
      assert e in rest || e == d;
      assert e in rest ==> e.key in KeysOf(rest);
    }
  }

  lemma {:induction false} BootMakesTables(read: Reader, tables: Db, defs: seq<TableDef>)
    requires Distinct(Map(KeyOf, defs))
    ensures RunAll(read, tables, BootScript(defs)).Some?
    ensures var now := RunAll(read, tables, BootScript(defs)).value;
            Remade(tables, now, defs) && Blank(now, defs)
  {
    hide RunAll;
    hide BootScript;
    hide Blank;
    hide Remade;
    if defs == [] {
      NothingMade(read, tables);
    } else {
      var n := |defs| - 1;
      var rest, d := defs[..n], defs[n];
      assert defs == rest + [d];
      DistinctFront(rest, d);
      BootMakesTables(read, tables, rest);
      BootMore(rest, d);
      var now := RunAll(read, tables, BootScript(rest)).value;
      RunAppend(read, tables, BootScript(rest), RemakeScript(d));
      RemakeMakes(read, now, d);
      RemadeNext(tables, now, rest, d, NewTable(d));
      BlankNext(now, rest, d);
    }
  }

  lemma NothingMade(read: Reader, tables: Db)
    ensures RunAll(read, tables, BootScript([])) == Some(tables)
    ensures Remade(tables, tables, []) && Blank(tables, [])
  {
  }

  lemma NoStatements(read: Reader, tables: Db)
    ensures RunAll(read, tables, []) == Some(tables) && BootScript([]) == []
    ensures forall chunks :: CopyScript([], chunks) == []
  {
  }

  // ---- Rows ----

  predicate AllWhole(parts: seq<Bytes>) { forall p | p in parts :: WholeLines(p) }

  lemma {:induction false} FlatWhole(parts: seq<Bytes>)
    requires AllWhole(parts)
    ensures WholeLines(Flat(parts))
  {
    if parts == [] {
    } else {
      FlatWhole(parts[..|parts| - 1]);
      assert parts[|parts| - 1] in parts;
    }
  }

  lemma {:induction false} CutWhole(chunks: seq<Bytes>)
    requires AllWhole(chunks)
    ensures (forall g | g in Cut(chunks).0 :: WholeLines(Flat(g))) && WholeLines(Flat(Cut(chunks).1))
  {
    hide Cut;
    hide Flat;
    FlatNone();
    if chunks == [] {
    } else {
      var n := |chunks| - 1;
      assert chunks == chunks[..n] + [chunks[n]] && chunks[n] in chunks;
      CutWhole(chunks[..n]);
      CutMore(chunks[..n], chunks[n]);
      FlatMore(Cut(chunks[..n]).1, chunks[n]);
    }
  }

  lemma BatchesWhole(chunks: seq<Bytes>)
    requires AllWhole(chunks)
    ensures AllWhole(BatchesOf(chunks))
  {
    hide Cut;
    hide Flat;
    CutWhole(chunks);
    forall b | b in BatchesOf(chunks)
      ensures WholeLines(b)
    {
      if b in FlatEach(Cut(chunks).0) {
        var i :| 0 <= i < |Cut(chunks).0| && b == Flat(Cut(chunks).0[i]);
        assert Cut(chunks).0[i] in Cut(chunks).0;
      }
    }
  }

  lemma EmptyPlus(rows: multiset<Row>)
    ensures multiset{} + rows == rows == rows + multiset{}
  {
  }

  lemma NoRowsIn(read: Reader, t: Target)
    ensures RowsIn(read, t, []) == multiset{}
  {
  }

  lemma FreeLess(a: multiset<Row>, b: multiset<Row>, u: Unique)
    requires Free(a + b, u)
    ensures Free(a, u)
  {
    hide Clash;
    forall x, y | x in a && y in a && Clash(u, x, y)
      ensures x == y && a[x] == 1
    {
      assert x in a + b && y in a + b;
    }
  }

  /** Rows taken away make no clash. */
  lemma ClashFreeLess(table: Table, more: multiset<Row>)
    requires ClashFree(table.(rows := table.rows + more))
    ensures ClashFree(table)
  {
    hide Free;
    forall u | u in table.uniques
      ensures Free(table.rows, u)
    {
      FreeLess(table.rows, more, u);
    }
  }

  function MoreRows(table: Table, more: multiset<Row>): Table { table.(rows := table.rows + more) }

  /** Loading batches of whole lines adds the rows of all the data, unless some of them clash. */
  lemma {:induction false} LoadsAddRows(read: Reader, tables: Db, t: Target, batches: seq<Bytes>)
    requires t in tables && AllWhole(batches) && ClashFree(tables[t])
    ensures var full := MoreRows(tables[t], RowsIn(read, t, Flat(batches)));
            RunAll(read, tables, Loads(t, batches)) == if ClashFree(full) then Some(tables[t := full]) else None
    decreases |batches|
  {
    hide RunAll;
    hide RowsIn;
    hide Flat;
    hide ClashFree;
    FlatNone();
    NothingRun(read, tables);
    NoRowsIn(read, t);
    if batches == [] {
      EmptyPlus(tables[t].rows);
      assert tables[t := tables[t]] == tables && tables[t].(rows := tables[t].rows) == tables[t];
      assert Loads(t, batches) == [];
    } else {
      var n := |batches| - 1;
      var rest, b := batches[..n], batches[n];
      assert batches == rest + [b];
      LoadsAddRows(read, tables, t, rest);
      LoadsMore(t, rest, b);
      RunNext(read, tables, Loads(t, rest), Load(t, b));
      FlatMore(rest, b);
      FlatWhole(rest);
      RowsJoin(read, t, Flat(rest), b);
      AddRows(tables, t, RowsIn(read, t, Flat(rest)), RowsIn(read, t, b));
      if ClashFree(MoreRows(tables[t], RowsIn(read, t, Flat(batches)))) {
        ClashFreeLess(MoreRows(tables[t], RowsIn(read, t, Flat(rest))), RowsIn(read, t, b));
      }
    }
  }

  lemma AddRows(tables: Db, t: Target, a: multiset<Row>, b: multiset<Row>)
    requires t in tables
    ensures var once := MoreRows(tables[t], a);
            && MoreRows(once, b) == MoreRows(tables[t], a + b)
            && tables[t := once][t := MoreRows(once, b)] == tables[t := MoreRows(tables[t], a + b)]
  {
    assert tables[t].rows + a + b == tables[t].rows + (a + b);
  }

  /** The rows that the data of a table carries. */
  function RowsFor(read: Reader, chunks: Chunks, t: Target): multiset<Row> {
    RowsIn(read, t, Flat(ChunksOf(chunks, t)))
  }

  predicate ChunksWhole(chunks: Chunks) { forall t | t in chunks :: AllWhole(chunks[t]) }

  lemma TableIsFilled(read: Reader, tables: Db, d: TableDef, chunks: Chunks)
    requires d.key in tables && ChunksWhole(chunks) && ClashFree(tables[d.key])
    ensures var full := MoreRows(tables[d.key], RowsFor(read, chunks, d.key));
            RunAll(read, tables, TableLoads(d, chunks)) ==
            if ClashFree(full) then Some(tables[d.key := full]) else None
  {
    hide RunAll;
    hide RowsIn;
    hide Flat;
    var data := ChunksOf(chunks, d.key);
    BatchesWhole(data);
    BatchesCarryTheData(data);
    LoadsAddRows(read, tables, d.key, BatchesOf(data));
  }

  /** The table with the rows of its data. */
  function FullTable(read: Reader, d: TableDef, chunks: Chunks): Table {
    Table(d.columns, UniquesOf(d), RowsFor(read, chunks, d.key))
  }

  ghost predicate Filled(read: Reader, now: Db, defs: seq<TableDef>, chunks: Chunks) {
    forall d | d in defs :: d.key in now && now[d.key] == FullTable(read, d, chunks)
  }

  /** No two rows of a table's data clash. */
  ghost predicate DataFits(read: Reader, defs: seq<TableDef>, chunks: Chunks) {
    forall d | d in defs :: ClashFree(FullTable(read, d, chunks))
  }

  lemma RemadeLeaves(before: Db, now: Db, rest: seq<TableDef>, t: Target)
    requires Remade(before, now, rest) && t in before && t !in KeysOf(rest)
    ensures t in now && now[t] == before[t]
  {
  }

  /** One more table filled. */
  lemma FillNext(read: Reader, before: Db, now: Db, rest: seq<TableDef>, d: TableDef, chunks: Chunks)
    requires Remade(before, now, rest) && Filled(read, now, rest, chunks) && d.key !in KeysOf(rest)
    requires d.key in before && before[d.key] == NewTable(d)
    ensures d.key in now && now[d.key] == NewTable(d)
    ensures var after := now[d.key := FullTable(read, d, chunks)];
            Remade(before, after, rest + [d]) && Filled(read, after, rest + [d], chunks)
  {
    hide Remade;
    hide FullTable;
    RemadeNext(before, now, rest, d, FullTable(read, d, chunks));
    RemadeLeaves(before, now, rest, d.key);
    var all, after := rest + [d], now[d.key := FullTable(read, d, chunks)];
    forall e | e in all
      ensures e.key in after && after[e.key] == FullTable(read, e, chunks)
    {
      assert e in rest || e == d;
      assert e in rest ==> e.key in KeysOf(rest);
    }
  }

  lemma CopyMore(defs: seq<TableDef>, d: TableDef, chunks: Chunks)
    ensures CopyScript(defs + [d], chunks) == CopyScript(defs, chunks) + TableLoads(d, chunks)
  {
    assert (defs + [d])[..|defs|] == defs;
  }

  lemma EmptyIsFree(d: TableDef)
    ensures ClashFree(NewTable(d))
  {
  }

  lemma FitsMore(read: Reader, rest: seq<TableDef>, d: TableDef, chunks: Chunks)
    ensures DataFits(read, rest + [d], chunks) <==>
            DataFits(read, rest, chunks) && ClashFree(FullTable(read, d, chunks))
  {
    hide FullTable;
    hide ClashFree;
    assert forall e :: e in rest + [d] <==> e in rest || e == d;
  }

  lemma NothingToFill(read: Reader, tables: Db, chunks: Chunks)
    ensures Remade(tables, tables, []) && Filled(read, tables, [], chunks) && DataFits(read, [], chunks)
  {
  }

  lemma {:induction false} CopyFills(read: Reader, tables: Db, defs: seq<TableDef>, chunks: Chunks)
    requires Distinct(Map(KeyOf, defs)) && ChunksWhole(chunks) && Blank(tables, defs)
    ensures RunAll(read, tables, CopyScript(defs, chunks)).Some? <==> DataFits(read, defs, chunks)
    ensures RunAll(read, tables, CopyScript(defs, chunks)).Some? ==>
            var now := RunAll(read, tables, CopyScript(defs, chunks)).value;
            Remade(tables, now, defs) && Filled(read, now, defs, chunks)
  {
    hide RunAll;
    hide RowsFor;
    hide TableLoads;
    hide CopyScript;
    hide DataFits;
    hide ClashFree;
    hide Remade;
    hide Filled;
    NoStatements(read, tables);
    if defs == [] {
      NothingToFill(read, tables, chunks);
    } else {
      var n := |defs| - 1;
      var rest, d := defs[..n], defs[n];
      assert defs == rest + [d] && d in defs;
      DistinctFront(rest, d);
      CopyFills(read, tables, rest, chunks);
      CopyMore(rest, d, chunks);
      FitsMore(read, rest, d, chunks);
      RunAppend(read, tables, CopyScript(rest, chunks), TableLoads(d, chunks));
      if RunAll(read, tables, CopyScript(rest, chunks)).Some? {
        var now := RunAll(read, tables, CopyScript(rest, chunks)).value;
        FillNext(read, tables, now, rest, d, chunks);
        EmptyIsFree(d);
        TableIsFilled(read, now, d, chunks);
        EmptyPlus(RowsFor(read, chunks, d.key));
      }
    }
  }

  /** From any tables, those of an earlier attempt included, the whole script runs exactly when
      the data of no table clashes, and leaves each published table with its columns, its keys
      and exactly the rows of its data, and every other table alone. */
  lemma ScriptMakesTheCopy(read: Reader, tables: Db, defs: seq<TableDef>, chunks: Chunks)
    requires Distinct(Map(KeyOf, defs)) && ChunksWhole(chunks)
    ensures RunAll(read, tables, Script(defs, chunks)).Some? <==> DataFits(read, defs, chunks)
    ensures RunAll(read, tables, Script(defs, chunks)).Some? ==>
            var now := RunAll(read, tables, Script(defs, chunks)).value;
            Remade(tables, now, defs) && Filled(read, now, defs, chunks)
  {
    hide RunAll;
    hide RowsFor;
    hide BootScript;
    hide CopyScript;
    hide DataFits;
    hide Filled;
    BootMakesTables(read, tables, defs);
    var made := RunAll(read, tables, BootScript(defs)).value;
    CopyFills(read, made, defs, chunks);
    RunAppend(read, tables, BootScript(defs), CopyScript(defs, chunks));
  }

  /** Every statement of the script can run after the ones before it. */
  lemma EveryStatementRuns(read: Reader, tables: Db, defs: seq<TableDef>, chunks: Chunks, n: nat)
    requires Distinct(Map(KeyOf, defs)) && ChunksWhole(chunks) && n <= |Script(defs, chunks)|
    requires DataFits(read, defs, chunks)
    ensures RunAll(read, tables, Script(defs, chunks)[..n]).Some?
  {
    hide RunAll;
    hide Script;
    hide DataFits;
    hide Remade;
    hide Filled;
    var script := Script(defs, chunks);
    ScriptMakesTheCopy(read, tables, defs, chunks);
    assert script[..n] + script[n..] == script;
    RunAppend(read, tables, script[..n], script[n..]);
  }

  // ---- The loops ----

  lemma BootPrefix(defs: seq<TableDef>, i: nat)
    requires i < |defs|
    ensures BootScript(defs[..i]) + RemakeScript(defs[i]) <= BootScript(defs)
    decreases |defs| - i
  {
    hide BootScript;
    var n := |defs| - 1;
    assert defs == defs[..n] + [defs[n]];
    BootMore(defs[..n], defs[n]);
    if i == n {
    } else {
      BootPrefix(defs[..n], i);
      assert defs[..n][..i] == defs[..i];
    }
  }

  lemma ReachedAfter(read: Reader, before: Db, a: seq<TableStmt>, b: seq<TableStmt>, mid: Db, m: nat, now: Db)
    requires RunAll(read, before, a) == Some(mid) && Reached(read, mid, b, m, now)
    ensures Reached(read, before, a + b, |a| + m, now)
  {
    hide RunAll;
    RunAppend(read, before, a, b[..m]);
    assert (a + b)[..|a| + m] == a + b[..m];
  }

  lemma ReachedMore(read: Reader, before: Db, script: seq<TableStmt>, longer: seq<TableStmt>, n: nat, now: Db)
    requires Reached(read, before, script, n, now) && script <= longer
    ensures Reached(read, before, longer, n, now)
  {
    assert longer[..n] == script[..n];
  }

  /** Fates that carried a first part and then a second carried both. */
  lemma RunOn(fates: seq<Fate>, n: nat, m: nat)
    requires AllRun(fates, n) && AllRun(Later(fates, n), m)
    ensures AllRun(fates, n + m) && Later(Later(fates, n), m) == Later(fates, n + m)
  {
    forall k | 0 <= k < n + m && k < |fates|
      ensures fates[k].Runs?
    {
      if k >= n {
        assert Later(fates, n)[k - n] == fates[k];
      }
    }
  }

  /** `bootstrap_schema`, up to the statement that fails; `n` statements took effect. */
  method BootstrapSchema(db: Server, defs: seq<TableDef>) returns (o: Outcome, ghost n: nat)
    requires db.Valid()
    modifies db
    ensures db.Valid() && Reached(db.read, old(db.tables), BootScript(defs), n, db.tables)
    ensures o.Pass? ==> n == |BootScript(defs)|
    ensures o.Pass? ==> AllRun(old(db.fates), n) && db.fates == Later(old(db.fates), n)
    ensures old(db.fates) == [] ==> o.Pass? && db.fates == []
  {
    hide RunAll;
    hide BootScript;
    hide RemakeScript;
    NoStatements(db.read, db.tables);
    n := 0;
    ghost var script, start := BootScript(defs), db.tables;
    assert defs[..0] == [];
    for i := 0 to |defs|
      invariant db.Valid() && AllRun(old(db.fates), n) && db.fates == Later(old(db.fates), n)
      invariant n == |BootScript(defs[..i])| && RunAll(db.read, start, BootScript(defs[..i])) == Some(db.tables)
    {
      var d := defs[i];
      ghost var done, mid := BootScript(defs[..i]), db.tables;
      BootPrefix(defs, i);
      assert defs[..i + 1] == defs[..i] + [d];
      BootMore(defs[..i], d);
      ghost var m;
      o, m := RemakeTable(db, d);
      ReachedAfter(db.read, start, done, RemakeScript(d), mid, m, db.tables);
      ReachedMore(db.read, start, done + RemakeScript(d), script, |done| + m, db.tables);
      n := |done| + m;
      if o.Fail? {
        return;
      }
      RunOn(old(db.fates), |done|, m);
      assert (done + RemakeScript(d))[..n] == done + RemakeScript(d);
    }
    assert defs[..|defs|] == defs && script[..n] == script;
    return Pass, n;
  }

  lemma CopyPrefix(defs: seq<TableDef>, chunks: Chunks, i: nat)
    requires i < |defs|
    ensures CopyScript(defs[..i], chunks) + TableLoads(defs[i], chunks) <= CopyScript(defs, chunks)
    decreases |defs| - i
  {
    hide TableLoads;
    hide CopyScript;
    var n := |defs| - 1;
    assert defs == defs[..n] + [defs[n]];
    CopyMore(defs[..n], defs[n], chunks);
    if i == n {
    } else {
      CopyPrefix(defs[..n], chunks, i);
      assert defs[..n][..i] == defs[..i];
    }
  }

  lemma {:induction false} LoadsKeepTables(read: Reader, tables: Db, t: Target, batches: seq<Bytes>, n: nat)
    requires n <= |batches| && RunAll(read, tables, Loads(t, batches)[..n]).Some?
    ensures RunAll(read, tables, Loads(t, batches)[..n]).value.Keys == tables.Keys
  {
    hide RowsIn;
    if n == 0 {
      NoStatements(read, tables);
    } else {
      var script := Loads(t, batches);
      assert script[..n] == script[..n - 1] + [script[n - 1]];
      RunNext(read, tables, script[..n - 1], script[n - 1]);
      LoadsKeepTables(read, tables, t, batches, n - 1);
    }
  }

  /** `copy_tables` over all tables. */
  method CopyAll(db: Server, defs: seq<TableDef>, chunks: Chunks) returns (o: Outcome, ghost n: nat)
    requires db.Valid() && CanAnswerAll(db.read, db.tables, CopyScript(defs, chunks), db.fates)
    modifies db
    ensures db.Valid() && Reached(db.read, old(db.tables), CopyScript(defs, chunks), n, db.tables)
    ensures o.Pass? ==> n == |CopyScript(defs, chunks)|
    ensures old(db.fates) == [] && KeysOf(defs) <= old(db.tables).Keys ==> o.Pass? && db.fates == []
  {
    hide RunAll;
    hide CopyScript;
    hide CanAnswerAll;
    hide AllRun;
    hide BatchesOf;
    hide Loads;
    NoStatements(db.read, db.tables);
    n := 0;
    ghost var script, start := CopyScript(defs, chunks), db.tables;
    assert defs[..0] == [] && script[0..] == script;
    for i := 0 to |defs|
      invariant db.Valid() && (old(db.fates) == [] ==> db.fates == [])
      invariant n == |CopyScript(defs[..i], chunks)| && n <= |script|
      invariant RunAll(db.read, start, CopyScript(defs[..i], chunks)) == Some(db.tables)
      invariant CanAnswerAll(db.read, db.tables, script[n..], db.fates)
      invariant start.Keys <= db.tables.Keys
    {
      var d := defs[i];
      ghost var done, mid := CopyScript(defs[..i], chunks), db.tables;
      CopyPrefix(defs, chunks, i);
      assert defs[..i + 1] == defs[..i] + [d] && d in defs;
      CopyMore(defs[..i], d, chunks);
      ghost var loads := TableLoads(d, chunks);
      assert script[n..] == loads + script[n + |loads|..];
      AnswersFirst(db.read, mid, loads, script[n + |loads|..], db.fates);
      ghost var m, fates := 0, db.fates;
      o, m := CopyTable(db, d.key, ChunksOf(chunks, d.key));
      ReachedAfter(db.read, start, done, loads, mid, m, db.tables);
      ReachedMore(db.read, start, done + loads, script, |done| + m, db.tables);
      LoadsKeepTables(db.read, mid, d.key, BatchesOf(ChunksOf(chunks, d.key)), m);
      n := |done| + m;
      if o.Fail? {
        return;
      }
      assert loads[..m] == loads && (done + loads)[..n] == done + loads && script[..n] == done + loads;
      AnswersThen(db.read, mid, loads, script[n..], fates);
    }
    assert defs[..|defs|] == defs && script[..n] == script;
    return Pass, n;
  }

  /** The tables of a first run: on success they are the copy, and a failure leaves those after
      some first statements of the script. A willing server does it all, unless rows clash. */
  method FirstCopy(db: Server, defs: seq<TableDef>, chunks: Chunks) returns (o: Outcome, ghost n: nat)
    requires db.Valid() && Distinct(Map(KeyOf, defs)) && ChunksWhole(chunks)
    requires CanAnswerAll(db.read, db.tables, Script(defs, chunks), db.fates)
    modifies db
    ensures db.Valid() && Reached(db.read, old(db.tables), Script(defs, chunks), n, db.tables)
    ensures o.Pass? ==> Remade(old(db.tables), db.tables, defs) && Filled(db.read, db.tables, defs, chunks)
    ensures o.Pass? ==> DataFits(db.read, defs, chunks)
    ensures old(db.fates) == [] ==> o.Pass?
  {
    hide RunAll;
    hide BootScript;
    hide CopyScript;
    hide Filled;
    hide DataFits;
    hide CanAnswerAll;
    ghost var start, boot, copy, fates := db.tables, BootScript(defs), CopyScript(defs, chunks), db.fates;
    ScriptMakesTheCopy(db.read, start, defs, chunks);
    BootMakesTables(db.read, start, defs);
    o, n := BootstrapSchema(db, defs);
    ReachedMore(db.read, start, boot, boot + copy, n, db.tables);
    if o.Fail? {
      return;
    }
    ghost var mid := db.tables;
    assert boot[..n] == boot;
    AnswersThen(db.read, start, boot, copy, fates);
    ghost var m;
    o, m := CopyAll(db, defs, chunks);
    ReachedAfter(db.read, start, boot, copy, mid, m, db.tables);
    n := n + m;
    if o.Pass? {
      assert (boot + copy)[..n] == boot + copy;
    }
  }
}
