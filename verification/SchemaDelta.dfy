/** `apply_schema_delta`: bring the local tables from the old fingerprint to the newly
    introspected publication. */
module SchemaDelta {
  import opened Wrappers
  import opened SqlText
  import opened Database
  import opened Fates
  import opened Fingerprint
  import opened LocalDb

  /** `pk` are the columns of the primary key, if there is one, and `indexes` the unique ones
      among the other indexes. */
  datatype TableDef = TableDef(key: Target, columns: seq<Column>, pk: seq<string>, indexes: seq<Unique>)

  type OldTables = map<Target, seq<Column>>

  /** The old tables, read back from their fingerprint lines. */
  function OldOf(lines: seq<string>): OldTables {
    if lines == [] then map[]
    else
      var before := OldOf(lines[..|lines| - 1]);
      match ParseLine(lines[|lines| - 1])
      case Some((key, cols)) => before[key := cols]
      case None => before
  }

  function KeyOf(d: TableDef): Target { d.key }

  function KeysOf(defs: seq<TableDef>): set<Target> { set d | d in defs :: d.key }

  function UniquesOf(d: TableDef): set<Unique> { PrimaryKey(d.pk) + set u | u in d.indexes }

  /** The table as it is created. */
  function NewTable(d: TableDef): Table { Table(d.columns, UniquesOf(d), multiset{}) }

  // ---- What the delta computes ----

  ghost function AddMissing(table: Table, cols: seq<Column>, oldNames: set<string>): Table {
    if cols == [] then table
    else
      var before := AddMissing(table, cols[..|cols| - 1], oldNames);
      var c := cols[|cols| - 1];
      if c.name in oldNames then before else AddColumn(before, c)
  }

  predicate Retyped(c: Column, cols: seq<Column>) {
    exists d :: d in cols && d.name == c.name && d.oid != c.oid
  }

  /** None when a column kept its name and changed its type. */
  ghost function DropGone(table: Table, oldCols: seq<Column>, cols: seq<Column>): Option<Table> {
    if oldCols == [] then Some(table)
    else
      var before :- DropGone(table, oldCols[..|oldCols| - 1], cols);
      var c := oldCols[|oldCols| - 1];
      if c.name !in ColNames(cols) then Some(DropColumn(before, c.name))
      else if Retyped(c, cols) then None
      else Some(before)
  }

  ghost function Retain(table: Table, oldCols: seq<Column>, cols: seq<Column>): Option<Table> {
    DropGone(AddMissing(table, cols, ColNames(oldCols)), oldCols, cols)
  }

  /** Whether any statement is sent for a retained table, or the change refused. */
  predicate Alters(oldCols: seq<Column>, cols: seq<Column>) {
    || (exists c :: c in cols && c.name !in ColNames(oldCols))
    || (exists c :: c in oldCols && (c.name !in ColNames(cols) || Retyped(c, cols)))
  }

  /** One retained table. A table that is not there is noticed only by a statement for it. */
  ghost function RetainIn(tables: Db, key: Target, oldCols: seq<Column>, cols: seq<Column>): Option<Db> {
    if key in tables then
      var t :- Retain(tables[key], oldCols, cols);
      Some(tables[key := t])
    else if Alters(oldCols, cols) then None
    else Some(tables)
  }

  ghost function Delta(tables: Db, prior: OldTables, defs: seq<TableDef>): Option<Db> {
    if defs == [] then Some(tables)
    else
      var d := defs[|defs| - 1];
      var before :- Delta(tables, prior, defs[..|defs| - 1]);
      if d.key !in prior then Some(before[d.key := NewTable(d)])
      else RetainIn(before, d.key, prior[d.key], d.columns)
  }

  ghost function WholeDelta(tables: Db, prior: OldTables, defs: seq<TableDef>): Option<Db> {
    Delta(tables - (prior.Keys - KeysOf(defs)), prior, defs)
  }

  // ---- One table made anew ----

  function Indexing(t: Target, indexes: seq<Unique>): (script: seq<TableStmt>)
    ensures |script| == |indexes|
  {
    seq(|indexes|, i requires 0 <= i < |indexes| => CreateIndex(t, indexes[i]))
  }

  /** The table is dropped if it is there, created with its primary key, and indexed. */
  function RemakeScript(d: TableDef): (script: seq<TableStmt>)
    ensures |script| == |d.indexes| + 2
  {
    [DropTable(d.key), CreateTable(d.key, d.columns, d.pk)] + Indexing(d.key, d.indexes)
  }

  /** The empty table with its first `n` indexes. */
  function IndexedTable(d: TableDef, n: nat): Table
    requires n <= |d.indexes|
  {
    Table(d.columns, PrimaryKey(d.pk) + set u | u in d.indexes[..n], multiset{})
  }

  lemma {:induction false} IndexesMade(read: Reader, tables: Db, d: TableDef, n: nat)
    requires n <= |d.indexes|
    ensures RunAll(read, tables, RemakeScript(d)[..n + 2]) == Some(tables[d.key := IndexedTable(d, n)])
  {
    hide RunAll;
    var script := RemakeScript(d);
    if n == 0 {
      RemadeEmpty(read, tables, d);
      assert script[..2] == [DropTable(d.key), CreateTable(d.key, d.columns, d.pk)];
    } else {
      IndexesMade(read, tables, d, n - 1);
      assert script[..n + 2] == script[..n + 1] + [script[n + 1]];
      RunNext(read, tables, script[..n + 1], script[n + 1]);
      var before := tables[d.key := IndexedTable(d, n - 1)];
      assert d.indexes[..n] == d.indexes[..n - 1] + [d.indexes[n - 1]];
      assert IndexedTable(d, n).uniques == IndexedTable(d, n - 1).uniques + {d.indexes[n - 1]};
      assert before[d.key := IndexedTable(d, n)] == tables[d.key := IndexedTable(d, n)];
    }
  }

  lemma RemadeEmpty(read: Reader, tables: Db, d: TableDef)
    ensures RunAll(read, tables, [DropTable(d.key), CreateTable(d.key, d.columns, d.pk)]) ==
            Some(tables[d.key := IndexedTable(d, 0)])
  {
    var drop, create := DropTable(d.key), CreateTable(d.key, d.columns, d.pk);
    RunNext(read, tables, [], drop);
    RunNext(read, tables, [drop], create);
    assert [] + [drop] == [drop] && [drop] + [create] == [drop, create];
    assert IndexedTable(d, 0).uniques == PrimaryKey(d.pk);
    assert (tables - {d.key})[d.key := IndexedTable(d, 0)] == tables[d.key := IndexedTable(d, 0)];
  }

  /** Whatever was there, the script runs and makes the table as it is defined. */
  lemma RemakeMakes(read: Reader, tables: Db, d: TableDef)
    ensures RunAll(read, tables, RemakeScript(d)) == Some(tables[d.key := NewTable(d)])
  {
    hide RunAll;
    var n := |d.indexes|;
    IndexesMade(read, tables, d, n);
    assert RemakeScript(d)[..n + 2] == RemakeScript(d) && d.indexes[..n] == d.indexes;
  }

  lemma DropRuns(read: Reader, tables: Db, t: Target)
    ensures RunStmt(read, tables, DropTable(t)).Some?
  {
  }

  /** One table made anew, up to the statement that fails; `n` statements took effect. */
  method RemakeTable(db: Server, d: TableDef) returns (o: Outcome, ghost n: nat)
    requires db.Valid()
    modifies db
    ensures db.Valid() && Reached(db.read, old(db.tables), RemakeScript(d), n, db.tables)
    ensures o.Pass? ==> n == |RemakeScript(d)| && db.tables == old(db.tables)[d.key := NewTable(d)]
    ensures o.Pass? ==> AllRun(old(db.fates), n) && db.fates == Later(old(db.fates), n)
    ensures old(db.fates) == [] ==> o.Pass? && db.fates == []
  {
    hide RunAll;
    hide RunStmt;
    hide AllRun;
    NoneRan(db.fates);
    ghost var script, start := RemakeScript(d), db.tables;
    NothingRun(db.read, start);
    RunNext(db.read, start, [], script[0]);
    assert script[..0] == [] && script[..1] == [] + [script[0]];
    n := 0;
    DropRuns(db.read, start, d.key);
    o := db.Run(DropTable(d.key));
    if o.Fail? {
      n := if db.tables == start then 0 else 1;
      return;
    }
    IndexesMade(db.read, start, d, 0);
    RunNext(db.read, start, script[..1], script[1]);
    assert script[..2] == script[..1] + [script[1]];
    OneRan(old(db.fates), 0);
    n := 1;
    ghost var before := db.tables;
    o := db.Run(CreateTable(d.key, d.columns, d.pk));
    if o.Fail? {
      n := if db.tables == before then 1 else 2;
      return;
    }
    OneRan(old(db.fates), 1);
    n := 2;
    for i := 0 to |d.indexes|
      invariant AllRun(old(db.fates), n) && db.fates == Later(old(db.fates), n)
      invariant n == i + 2 && db.Valid() && db.tables == start[d.key := IndexedTable(d, i)]
      invariant RunAll(db.read, start, script[..n]) == Some(db.tables)
      invariant old(db.fates) == [] ==> db.fates == []
    {
      IndexesMade(db.read, start, d, i + 1);
      RunNext(db.read, start, script[..n], script[n]);
      assert script[..n + 1] == script[..n] + [script[n]];
      before := db.tables;
      o := db.Run(CreateIndex(d.key, d.indexes[i]));
      if o.Fail? {
        n := if db.tables == before then n else n + 1;
        return;
      }
      OneRan(old(db.fates), n);
      n := n + 1;
    }
    RemakeMakes(db.read, start, d);
    assert script[..n] == script;
    o := Pass;
  }

  // ---- The loops ----

  /** Once a retyped column is met, the rest of the list cannot help. */
  lemma {:induction false} DropGoneFails(table: Table, oldCols: seq<Column>, cols: seq<Column>, i: nat)
    requires i < |oldCols| && oldCols[i].name in ColNames(cols) && Retyped(oldCols[i], cols)
    ensures DropGone(table, oldCols, cols).None?
  {
    var n := |oldCols| - 1;
    if i == n {
    } else {
      DropGoneFails(table, oldCols[..n], cols, i);
    }
  }

  lemma {:induction false} DeltaFails(tables: Db, prior: OldTables, defs: seq<TableDef>, i: nat)
    requires i <= |defs| && Delta(tables, prior, defs[..i]).None?
    ensures Delta(tables, prior, defs).None?
    decreases |defs| - i
  {
    if i == |defs| {
      assert defs[..i] == defs;
    } else {
      assert defs[..i + 1][..i] == defs[..i];
      DeltaFails(tables, prior, defs, i + 1);
    }
  }

  method DropRemoved(db: Server, prior: OldTables, newKeys: set<Target>) returns (o: Result<()>)
    requires db.Valid()
    modifies db
    ensures db.Valid()
    ensures o.Success? ==> db.tables == old(db.tables) - (prior.Keys - newKeys)
    ensures old(db.fates) == [] ==> o.Success? && db.fates == []
  {
    var todo := prior.Keys;
    while todo != {}
      invariant todo <= prior.Keys && db.Valid()
      invariant db.tables == old(db.tables) - (prior.Keys - newKeys - todo)
      invariant old(db.fates) == [] ==> db.fates == []
      decreases todo
    {
      var k :| k in todo;
      if k !in newKeys {
        :- db.Run(DropTable(k));
      }
      todo := todo - {k};
    }
    assert prior.Keys - newKeys - {} == prior.Keys - newKeys;
    return Success(());
  }

  /** The tables with the first missing columns added. */
  ghost predicate AddedSo(before: Db, tables: Db, key: Target, oldCols: seq<Column>, cols: seq<Column>) {
    if key in before then tables == before[key := AddMissing(before[key], cols, ColNames(oldCols))]
    else tables == before && forall c | c in cols :: c.name in ColNames(oldCols)
  }

  /** And with the first columns that are gone dropped. */
  ghost predicate DroppedSo(
      before: Db, tables: Db, key: Target, oldCols: seq<Column>, cols: seq<Column>, done: seq<Column>)
  {
    if key in before then
      var t := DropGone(AddMissing(before[key], cols, ColNames(oldCols)), done, cols);
      t.Some? && tables == before[key := t.value]
    else tables == before && forall c | c in done :: c.name in ColNames(cols) && !Retyped(c, cols)
  }

  lemma NothingAddedYet(before: Db, key: Target, oldCols: seq<Column>)
    ensures AddedSo(before, before, key, oldCols, [])
  {
    if key in before {
      assert before[key := before[key]] == before;
    }
  }

  method AddMissingColumns(db: Server, key: Target, oldCols: seq<Column>, cols: seq<Column>) returns (o: Outcome)
    requires db.Valid()
    modifies db
    ensures db.Valid() && (old(db.fates) == [] ==> db.fates == [])
    ensures o.Pass? ==> AddedSo(old(db.tables), db.tables, key, oldCols, cols)
    ensures old(db.fates) == [] && o.Fail? ==> key !in old(db.tables) && Alters(oldCols, cols)
  {
    ghost var before := db.tables;
    var oldNames := ColNames(oldCols);
    NothingAddedYet(before, key, oldCols);
    for i := 0 to |cols|
      invariant db.Valid() && AddedSo(before, db.tables, key, oldCols, cols[..i])
      invariant old(db.fates) == [] ==> db.fates == []
    {
      assert cols[..i + 1][..i] == cols[..i] && cols[..i + 1] == cols[..i] + [cols[i]];
      if cols[i].name !in oldNames {
        o := db.Run(AddColumnTo(key, cols[i]));
        if o.Fail? {
          assert cols[i] in cols;
          return;
        }
      }
    }
    assert cols[..|cols|] == cols;
    return Pass;
  }

  method RetainTable(db: Server, key: Target, oldCols: seq<Column>, cols: seq<Column>) returns (o: Outcome)
    requires db.Valid()
    modifies db
    ensures db.Valid() && (old(db.fates) == [] ==> db.fates == [])
    ensures o.Pass? ==> RetainIn(old(db.tables), key, oldCols, cols) == Some(db.tables)
    ensures old(db.fates) == [] && o.Fail? ==> RetainIn(old(db.tables), key, oldCols, cols).None?
    ensures old(db.fates) == [] && o.Fail? && key in old(db.tables) ==> o.error == ReplicaHalted
  {
    ghost var before := db.tables;
    o := AddMissingColumns(db, key, oldCols, cols);
    if o.Fail? {
      return;
    }
    var newNames := ColNames(cols);
    for i := 0 to |oldCols|
      invariant db.Valid() && DroppedSo(before, db.tables, key, oldCols, cols, oldCols[..i])
      invariant old(db.fates) == [] ==> db.fates == []
    {
      assert oldCols[..i + 1][..i] == oldCols[..i] && oldCols[..i + 1] == oldCols[..i] + [oldCols[i]];
      var c := oldCols[i];
      assert c in oldCols;
      if c.name !in newNames {
        o := db.Run(DropColumnFrom(key, c.name));
        if o.Fail? {
          return;
        }
      } else if Retyped(c, cols) {
        if key in before {
          DropGoneFails(AddMissing(before[key], cols, ColNames(oldCols)), oldCols, cols, i);
        }
        return Fail(ReplicaHalted);
      }
    }
    assert oldCols[..|oldCols|] == oldCols;
    return Pass;
  }

  /** Every old table is there, and no new one is listed twice. */
  ghost predicate Complete(tables: Db, prior: OldTables, defs: seq<TableDef>) {
    prior.Keys <= tables.Keys && Distinct(Map(KeyOf, defs))
  }

  /** `apply_schema_delta` after the introspection, and the error it stops at. */
  method ApplySchemaDelta(db: Server, oldLines: seq<string>, newTables: seq<TableDef>)
    returns (o: Result<seq<TableDef>>)
    requires db.Valid()
    modifies db
    ensures db.Valid()
    ensures o.Success? ==> o.value == newTables
    ensures o.Success? ==> WholeDelta(old(db.tables), OldOf(oldLines), newTables) == Some(db.tables)
    ensures old(db.fates) == [] ==>
      (o.Success? <==> WholeDelta(old(db.tables), OldOf(oldLines), newTables).Some?)
    ensures old(db.fates) == [] && o.Failure? && Complete(old(db.tables), OldOf(oldLines), newTables) ==>
      o.error == ReplicaHalted
  {
    var prior := OldOf(oldLines);
    ghost var keys := Map(KeyOf, newTables);
    var dropped := DropRemoved(db, prior, KeysOf(newTables));
    if dropped.Failure? {
      return Failure(dropped.error);
    }
    ghost var kept := db.tables;
    ghost var whole := Complete(old(db.tables), prior, newTables);
    for i := 0 to |newTables|
      invariant db.Valid() && Delta(kept, prior, newTables[..i]) == Some(db.tables)
      invariant whole ==> forall j | i <= j < |newTables| && keys[j] in prior :: keys[j] in db.tables
      invariant old(db.fates) == [] ==> db.fates == []
    {
      var t := newTables[i];
      assert newTables[..i + 1][..i] == newTables[..i] && keys[i] == t.key;
      if t.key !in prior {
        var r, _ := RemakeTable(db, t);
        if r.Fail? {
          return Failure(r.error);
        }
      } else {
        var r := RetainTable(db, t.key, prior[t.key], t.columns);
        if r.Fail? {
          if old(db.fates) == [] {
            DeltaFails(kept, prior, newTables, i + 1);
          }
          return Failure(r.error);
        }
      }
    }
    assert newTables[..|newTables|] == newTables;
    return Success(newTables);
  }

  // ---- Convergence ----

  function ColSet(cols: seq<Column>): set<Column> { set c | c in cols }

  predicate DistinctNames(cols: seq<Column>) {
    forall i, j | 0 <= i < j < |cols| :: cols[i].name != cols[j].name
  }

  /** No column of the table keeps its name and changes its type. */
  ghost predicate KeepsTypes(oldCols: seq<Column>, cols: seq<Column>) {
    forall c | c in oldCols :: !Retyped(c, cols)
  }

  ghost predicate AllKeepTypes(prior: OldTables, defs: seq<TableDef>) {
    forall d | d in defs && d.key in prior :: KeepsTypes(prior[d.key], d.columns)
  }

  /** The local tables are those of the old fingerprint. */
  ghost predicate Agrees(tables: Db, prior: OldTables) {
    forall t | t in prior ::
      && t in tables && DistinctNames(prior[t]) && ColSet(tables[t].cols) == ColSet(prior[t])
  }

  lemma {:induction false} WithoutNameHas(cols: seq<Column>, name: string, c: Column)
    ensures c in WithoutName(cols, name) <==> c in cols && c.name != name
  {
    if cols == [] {
    } else {
      WithoutNameHas(cols[1..], name, c);
    }
  }

  lemma NamesOfSet(a: seq<Column>, b: seq<Column>)
    requires ColSet(a) == ColSet(b)
    ensures ColNames(a) == ColNames(b)
  {
    forall n
      ensures n in ColNames(a) <==> n in ColNames(b)
    {
      if n in ColNames(a) {
        var c :| c in a && c.name == n;
        assert c in ColSet(b);
      }
      if n in ColNames(b) {
        var c :| c in b && c.name == n;
        assert c in ColSet(a);
      }
    }
  }

  lemma AddedIsOldOrEarlier(table: Table, cols: seq<Column>, oldNames: set<string>, d: Column)
    requires ColNames(table.cols) == oldNames && d in AddMissing(table, cols, oldNames).cols
    requires ColSet(AddMissing(table, cols, oldNames).cols)
             == ColSet(table.cols) + set c | c in cols && c.name !in oldNames
    ensures d.name in oldNames || d in cols
  {
    assert d in ColSet(AddMissing(table, cols, oldNames).cols);
  }

  lemma {:induction false} AddMissingSet(table: Table, cols: seq<Column>, oldNames: set<string>)
    requires DistinctNames(cols) && ColNames(table.cols) == oldNames
    ensures ColSet(AddMissing(table, cols, oldNames).cols)
            == ColSet(table.cols) + set c | c in cols && c.name !in oldNames
  {
    hide Rewrite;
    if cols == [] {
    } else {
      var n := |cols| - 1;
      var c := cols[n];
      AddMissingSet(table, cols[..n], oldNames);
      var before := AddMissing(table, cols[..n], oldNames);
      assert cols == cols[..n] + [c];
      if c.name !in oldNames && c.name in ColNames(before.cols) {
        var d :| d in before.cols && d.name == c.name;
        AddedIsOldOrEarlier(table, cols[..n], oldNames, d);
        assert false;
      }
    }
  }

  lemma DropColumnHas(table: Table, name: string, c: Column)
    ensures c in DropColumn(table, name).cols <==> c in table.cols && c.name != name
  {
    WithoutNameHas(table.cols, name, c);
  }

  lemma ColNamesSnoc(cols: seq<Column>)
    requires cols != []
    ensures ColNames(cols) == ColNames(cols[..|cols| - 1]) + {cols[|cols| - 1].name}
  {
  }

  lemma {:induction false} DropGoneHas(table: Table, oldCols: seq<Column>, cols: seq<Column>, c: Column)
    requires DropGone(table, oldCols, cols).Some?
    ensures c in DropGone(table, oldCols, cols).value.cols
            <==> c in table.cols && !(c.name in ColNames(oldCols) && c.name !in ColNames(cols))
  {
    if oldCols == [] {
    } else {
      hide Retyped;
      hide ColNames;
      hide DropColumn;
      var n := |oldCols| - 1;
      var d := oldCols[n];
      DropGoneHas(table, oldCols[..n], cols, c);
      ColNamesSnoc(oldCols);
      DropColumnHas(DropGone(table, oldCols[..n], cols).value, d.name, c);
    }
  }

  lemma RetypedIsNamed(c: Column, cols: seq<Column>)
    ensures Retyped(c, cols) ==> c.name in ColNames(cols)
  {
  }

  lemma {:induction false} DropGoneKeepsTypes(table: Table, oldCols: seq<Column>, cols: seq<Column>, c: Column)
    requires DropGone(table, oldCols, cols).Some? && c in oldCols
    ensures !Retyped(c, cols)
  {
    var n := |oldCols| - 1;
    if c == oldCols[n] {
      RetypedIsNamed(c, cols);
    } else {
      DropGoneKeepsTypes(table, oldCols[..n], cols, c);
    }
  }

  lemma {:induction false} DropGoneWorks(table: Table, oldCols: seq<Column>, cols: seq<Column>)
    requires forall c | c in oldCols :: !Retyped(c, cols)
    ensures DropGone(table, oldCols, cols).Some?
  {
    if oldCols == [] {
    } else {
      DropGoneWorks(table, oldCols[..|oldCols| - 1], cols);
    }
  }

  /** One retained table: it succeeds exactly when no column kept its name and changed its
      type, and then the columns are the new ones. */
  lemma RetainConverges(table: Table, oldCols: seq<Column>, cols: seq<Column>)
    requires ColSet(table.cols) == ColSet(oldCols) && DistinctNames(oldCols) && DistinctNames(cols)
    ensures Retain(table, oldCols, cols).Some? <==> KeepsTypes(oldCols, cols)
    ensures Retain(table, oldCols, cols).Some? ==> ColSet(Retain(table, oldCols, cols).value.cols) == ColSet(cols)
  {
    var oldNames := ColNames(oldCols);
    NamesOfSet(table.cols, oldCols);
    AddMissingSet(table, cols, oldNames);
    var added := AddMissing(table, cols, oldNames);
    if forall c | c in oldCols :: !Retyped(c, cols) {
      DropGoneWorks(added, oldCols, cols);
    }
    if DropGone(added, oldCols, cols).Some? {
      forall c | c in oldCols
        ensures !Retyped(c, cols)
      {
        DropGoneKeepsTypes(added, oldCols, cols, c);
      }
      var result := DropGone(added, oldCols, cols).value;
      forall c
        ensures c in result.cols <==> c in cols
      {
        DropGoneHas(added, oldCols, cols, c);
        RetainedColumn(added, oldCols, cols, c);
      }
    }
  }

  lemma RetainedColumn(added: Table, oldCols: seq<Column>, cols: seq<Column>, c: Column)
    requires ColSet(added.cols) == ColSet(oldCols) + set d | d in cols && d.name !in ColNames(oldCols)
    requires forall d | d in oldCols :: !Retyped(d, cols)
    ensures c in cols <==> c in added.cols && !(c.name in ColNames(oldCols) && c.name !in ColNames(cols))
  {
    assert c in added.cols <==> c in ColSet(added.cols);
    if c in cols && c.name in ColNames(oldCols) {
      var d :| d in oldCols && d.name == c.name;
      assert !Retyped(d, cols);
    }
    if c in oldCols && c.name in ColNames(cols) {
      var d :| d in cols && d.name == c.name;
      assert !Retyped(c, cols);
    }
  }

  lemma DistinctFront(rest: seq<TableDef>, d: TableDef)
    requires Distinct(Map(KeyOf, rest + [d]))
    ensures Distinct(Map(KeyOf, rest)) && d.key !in KeysOf(rest)
  {
    var keys := Map(KeyOf, rest + [d]);
    assert forall i | 0 <= i < |rest| :: keys[i] == rest[i].key;
    assert keys[|rest|] == d.key;
  }

  /** The tables of the definitions, with their columns, and the other tables untouched. */
  ghost predicate Reaches(tables: Db, after: Db, defs: seq<TableDef>) {
    && after.Keys == tables.Keys + KeysOf(defs)
    && (forall d | d in defs :: ColSet(after[d.key].cols) == ColSet(d.columns))
    && (forall t | t in tables && t !in KeysOf(defs) :: after[t] == tables[t])
  }

  lemma ReachesMore(tables: Db, before: Db, rest: seq<TableDef>, d: TableDef, table: Table)
    requires Reaches(tables, before, rest) && d.key !in KeysOf(rest) && ColSet(table.cols) == ColSet(d.columns)
    ensures Reaches(tables, before[d.key := table], rest + [d])
  {
    hide ColSet;
    assert KeysOf(rest + [d]) == KeysOf(rest) + {d.key} by {
      assert forall e :: e in rest + [d] <==> e in rest || e == d;
    }
    assert forall e | e in rest :: e.key in KeysOf(rest);
  }

  lemma AllKeepMore(prior: OldTables, rest: seq<TableDef>, d: TableDef)
    ensures AllKeepTypes(prior, rest + [d]) <==>
            AllKeepTypes(prior, rest) && (d.key in prior ==> KeepsTypes(prior[d.key], d.columns))
  {
    hide KeepsTypes;
    assert forall e :: e in rest + [d] <==> e in rest || e == d;
  }

  /** A table that is there and known from before. */
  ghost predicate WasThere(tables: Db, prior: OldTables, d: TableDef) {
    d.key in prior ==>
      d.key in tables && ColSet(tables[d.key].cols) == ColSet(prior[d.key]) && DistinctNames(prior[d.key])
  }

  lemma DeltaMore(tables: Db, prior: OldTables, rest: seq<TableDef>, d: TableDef)
    ensures Delta(tables, prior, rest + [d]) ==
            match Delta(tables, prior, rest)
            case None => None
            case Some(before) =>
              if d.key !in prior then Some(before[d.key := NewTable(d)])
              else RetainIn(before, d.key, prior[d.key], d.columns)
  {
    hide RetainIn;
    assert (rest + [d])[..|rest|] == rest;
  }

  lemma {:induction false} DeltaConverges(tables: Db, prior: OldTables, defs: seq<TableDef>)
    requires forall d | d in defs :: WasThere(tables, prior, d)
    requires Distinct(Map(KeyOf, defs)) && forall d | d in defs :: DistinctNames(d.columns)
    ensures Delta(tables, prior, defs).Some? <==> AllKeepTypes(prior, defs)
    ensures Delta(tables, prior, defs).Some? ==> Reaches(tables, Delta(tables, prior, defs).value, defs)
  {
    hide Delta;
    hide Retain;
    hide Alters;
    hide KeepsTypes;
    hide AllKeepTypes;
    hide Reaches;
    hide ColSet;
    hide DistinctNames;
    NoDefs(tables, prior);
    if defs == [] {
    } else {
      var n := |defs| - 1;
      var d, rest := defs[n], defs[..n];
      assert defs == rest + [d] && d in defs;
      DistinctFront(rest, d);
      DeltaConverges(tables, prior, rest);
      AllKeepMore(prior, rest, d);
      DeltaMore(tables, prior, rest, d);
      if Delta(tables, prior, rest).Some? {
        var before := Delta(tables, prior, rest).value;
        if d.key !in prior {
          ReachesMore(tables, before, rest, d, NewTable(d));
        } else {
          Untouched(tables, before, rest, d);
          RetainConverges(tables[d.key], prior[d.key], d.columns);
          if Retain(tables[d.key], prior[d.key], d.columns).Some? {
            ReachesMore(tables, before, rest, d, Retain(tables[d.key], prior[d.key], d.columns).value);
          }
        }
      }
    }
  }

  lemma NoDefs(tables: Db, prior: OldTables)
    ensures Delta(tables, prior, []) == Some(tables) && Reaches(tables, tables, []) && AllKeepTypes(prior, [])
  {
  }

  lemma Untouched(tables: Db, before: Db, rest: seq<TableDef>, d: TableDef)
    requires Reaches(tables, before, rest) && d.key in tables && d.key !in KeysOf(rest)
    ensures d.key in before && before[d.key] == tables[d.key]
  {
  }

  /** From tables that match the old fingerprint: the delta succeeds exactly when no retained
      column changed its type, and then the local tables are exactly the introspected ones,
      removed tables are gone and other tables are untouched. */
  lemma DeltaReachesPublication(tables: Db, prior: OldTables, defs: seq<TableDef>)
    requires Agrees(tables, prior)
    requires Distinct(Map(KeyOf, defs)) && forall d | d in defs :: DistinctNames(d.columns)
    ensures WholeDelta(tables, prior, defs).Some? <==>
            AllKeepTypes(prior, defs)
    ensures WholeDelta(tables, prior, defs).Some? ==>
            var after := WholeDelta(tables, prior, defs).value;
            && after.Keys == tables.Keys - prior.Keys + KeysOf(defs)
            && (forall d | d in defs :: ColSet(after[d.key].cols) == ColSet(d.columns))
            && (forall t | t in tables && t !in prior && t !in KeysOf(defs) :: after[t] == tables[t])
  {
    var gone := prior.Keys - KeysOf(defs);
    DeltaConverges(tables - gone, prior, defs);
    assert (tables - gone).Keys + KeysOf(defs) == tables.Keys - prior.Keys + KeysOf(defs);
  }

  // ---- Nothing to do ----

  lemma {:induction false} AddMissingNothing(table: Table, cols: seq<Column>, oldNames: set<string>)
    requires forall c | c in cols :: c.name in oldNames
    ensures AddMissing(table, cols, oldNames) == table
  {
    if cols == [] {
    } else {
      AddMissingNothing(table, cols[..|cols| - 1], oldNames);
    }
  }

  lemma {:induction false} DropGoneNothing(table: Table, oldCols: seq<Column>, cols: seq<Column>)
    requires forall c | c in oldCols :: c.name in ColNames(cols) && !Retyped(c, cols)
    ensures DropGone(table, oldCols, cols) == Some(table)
  {
    if oldCols == [] {
    } else {
      DropGoneNothing(table, oldCols[..|oldCols| - 1], cols);
    }
  }

  /** The definition repeats what the old fingerprint says of its table. */
  ghost predicate Repeated(prior: OldTables, d: TableDef) {
    d.key in prior && DistinctNames(d.columns) && ColSet(prior[d.key]) == ColSet(d.columns)
  }

  lemma SameColsNotRetyped(cols: seq<Column>, c: Column)
    requires DistinctNames(cols) && c in cols
    ensures !Retyped(c, cols)
  {
  }

  lemma RetainNothing(table: Table, oldCols: seq<Column>, cols: seq<Column>)
    requires DistinctNames(cols) && ColSet(oldCols) == ColSet(cols)
    ensures Retain(table, oldCols, cols) == Some(table)
  {
    NamesOfSet(oldCols, cols);
    assert forall c | c in cols :: c.name in ColNames(cols);
    AddMissingNothing(table, cols, ColNames(oldCols));
    forall c | c in oldCols
      ensures c.name in ColNames(cols) && !Retyped(c, cols)
    {
      assert c in ColSet(cols);
      SameColsNotRetyped(cols, c);
    }
    DropGoneNothing(table, oldCols, cols);
  }

  lemma {:induction false} DeltaNothing(tables: Db, prior: OldTables, defs: seq<TableDef>)
    requires forall d | d in defs :: Repeated(prior, d) && d.key in tables
    ensures Delta(tables, prior, defs) == Some(tables)
  {
    if defs == [] {
    } else {
      var d := defs[|defs| - 1];
      DeltaNothing(tables, prior, defs[..|defs| - 1]);
      assert Repeated(prior, d);
      RetainNothing(tables[d.key], prior[d.key], d.columns);
      assert tables[d.key := tables[d.key]] == tables;
    }
  }

  /** A publication that did not change leaves the tables, rows included, as they are. */
  lemma UnchangedPublicationKeepsTables(tables: Db, prior: OldTables, defs: seq<TableDef>)
    requires forall t | t in prior :: t in tables
    requires KeysOf(defs) == prior.Keys && forall d | d in defs :: Repeated(prior, d)
    ensures WholeDelta(tables, prior, defs) == Some(tables)
  {
    assert prior.Keys - KeysOf(defs) == {};
    assert tables - {} == tables;
    DeltaNothing(tables, prior, defs);
  }
}
