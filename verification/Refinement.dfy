/** Running the statement printed for a row change repeats the change. Upstream, an UPDATE
    or DELETE message is about one row; locally its statement acts on every row the WHERE
    clause selects. */
module Refinement {
  import opened Wrappers
  import opened PgOutput
  import opened SqlText
  import opened RowChanges
  import opened Database

  datatype Change = Inserted(row: Row) | Updated(before: Row, after: Row) | Deleted(before: Row)

  /** The upstream table after the change. */
  function ApplyChange(rows: multiset<Row>, c: Change): multiset<Row> {
    match c
    case Inserted(row) => rows + multiset{row}
    case Updated(before, after) => rows - multiset{before} + multiset{after}
    case Deleted(before) => rows - multiset{before}
  }

  // ---- What a message says about a row ----

  predicate DistinctCols(cols: seq<RelColumn>) {
    forall i, j | 0 <= i < j < |cols| :: cols[i].name != cols[j].name
  }

  function RelNames(rel: Rel): set<string> { set c | c in rel.columns :: c.name }

  predicate RowOf(rel: Rel, row: Row) { row.Keys == RelNames(rel) }

  predicate SomeSent(t: TupleData) { exists i :: 0 <= i < |t| && !t[i].UnchangedToast? }

  /** The relation was announced with its identity columns marked: flags 1 for a column of the
      key, 0 for another. */
  predicate Marks(rel: Rel, identity: set<string>) {
    && identity <= RelNames(rel)
    && forall c | c in rel.columns :: c.flags == if c.name in identity then 1 else 0
  }

  /** The cell was sent and holds the value. */
  predicate CellIs(cell: CellValue, v: Value) {
    match cell
    case Null => v == None
    case Text(s) => v == Some(s)
    case UnchangedToast => false
  }

  /** Every cell that was sent holds the row's value in its column. */
  predicate Shows(rel: Rel, t: TupleData, row: Row)
    requires RowOf(rel, row)
  {
    |t| == |rel.columns| &&
    forall i | 0 <= i < |t| && !t[i].UnchangedToast? ::
      rel.columns[i].name in row && CellIs(t[i], row[rel.columns[i].name])
  }

  /** There are identity columns, and the cell of each was sent and holds the row's value. */
  predicate ShowsKey(rel: Rel, identity: set<string>, t: TupleData, row: Row)
    requires RowOf(rel, row)
  {
    |t| == |rel.columns| && identity != {} &&
    forall i | 0 <= i < |t| && rel.columns[i].name in identity ::
      rel.columns[i].name in row && CellIs(t[i], row[rel.columns[i].name])
  }

  /** The identity part of a message shows the old row: a FULL image, a key image, or, when
      neither was sent, the identity columns of the new tuple. */
  predicate Identifies(rel: Rel, identity: set<string>,
      key: Option<TupleData>, before: Option<TupleData>, after: Option<TupleData>, row: Row)
    requires RowOf(rel, row)
  {
    if before.Some? then
      Shows(rel, before.value, row) && SomeSent(before.value)
    else if key.Some? then ShowsKey(rel, identity, key.value, row)
    else after.Some? && ShowsKey(rel, identity, after.value, row)
  }

  /** The message describes the change: a cell marked unchanged did not change. */
  predicate Describes(rel: Rel, identity: set<string>, c: Change, m: Msg) {
    match c
    case Inserted(row) =>
      m.Insert? && RowOf(rel, row) && Shows(rel, m.after, row) && !ToastIn(m.after, |m.after|)
    case Updated(before, after) =>
      && m.Update? && RowOf(rel, before) && RowOf(rel, after)
      && Shows(rel, m.after, after) && SomeSent(m.after)
      && KeepsToast(rel, m.after, before, after)
      && Identifies(rel, identity, m.key, m.before, Some(m.after), before)
    case Deleted(before) =>
      m.Delete? && RowOf(rel, before) && Identifies(rel, identity, m.key, m.before, None, before)
  }

  // ---- The WHERE clause ----

  predicate Agrees(row: Row, pairs: ColPairs) {
    forall p | p in pairs :: p.0 in row && row[p.0] == p.1
  }

  /** On the key path and on the FULL path, a row is selected exactly when it agrees with
      every reported pair, NULL agreeing with NULL only. */
  lemma WhereSelects(rel: Rel, key: Option<TupleData>, before: Option<TupleData>, after: Option<TupleData>, row: Row)
    requires WherePlan(rel, key, before, after).Success?
    ensures var w := WherePlan(rel, key, before, after).value;
            Selects(w.conds, row) <==> Agrees(row, w.pairs)
  {
    var w := WherePlan(rel, key, before, after).value;
    var f := if before.Some? then NullSafe else KeyCond;
    assert w.conds == Map(f, w.pairs);
    if Selects(w.conds, row) {
      forall p | p in w.pairs
        ensures p.0 in row && row[p.0] == p.1
      {
        assert f(p) in w.conds;
        assert Holds(row, f(p));
      }
    }
    if Agrees(row, w.pairs) {
      forall c | c in w.conds
        ensures Holds(row, c)
      {
        var p :| p in w.pairs && c == f(p);
      }
    }
  }

  // ---- Pairs and rows ----

  lemma {:induction false} SentHas(cols: seq<RelColumn>, t: TupleData, n: nat, i: nat)
    requires i < n <= |cols| == |t| && !t[i].UnchangedToast?
    ensures (cols[i].name, ValueOf(t[i])) in Sent(cols, t, n)
  {
    if i == n - 1 {
    } else {
      SentHas(cols, t, n - 1, i);
    }
  }

  lemma {:induction false} SentFrom(cols: seq<RelColumn>, t: TupleData, n: nat, p: ColPair) returns (i: nat)
    requires n <= |cols| == |t| && p in Sent(cols, t, n)
    ensures i < n && !t[i].UnchangedToast? && p == (cols[i].name, ValueOf(t[i]))
  {
    if p in Sent(cols, t, n - 1) {
      i := SentFrom(cols, t, n - 1, p);
    } else {
      i := n - 1;
    }
  }

  lemma {:induction false} KeysHave(cols: seq<RelColumn>, t: TupleData, n: nat, i: nat)
    requires i < n <= |cols| == |t| && IsKey(cols[i])
    ensures (cols[i].name, ValueOf(t[i])) in Keys(cols, t, n)
  {
    if i == n - 1 {
    } else {
      KeysHave(cols, t, n - 1, i);
    }
  }

  lemma {:induction false} KeysFrom(cols: seq<RelColumn>, t: TupleData, n: nat, p: ColPair) returns (i: nat)
    requires n <= |cols| == |t| && p in Keys(cols, t, n)
    ensures i < n && IsKey(cols[i]) && p == (cols[i].name, ValueOf(t[i]))
  {
    if p in Keys(cols, t, n - 1) {
      i := KeysFrom(cols, t, n - 1, p);
    } else {
      i := n - 1;
    }
  }

  lemma {:induction false} SentDistinct(cols: seq<RelColumn>, t: TupleData, n: nat)
    requires n <= |cols| == |t| && DistinctCols(cols)
    ensures Distinct(Map(NameOf, Sent(cols, t, n)))
  {
    if n == 0 {
    } else {
      SentDistinct(cols, t, n - 1);
      var before := Sent(cols, t, n - 1);
      forall k | 0 <= k < |before|
        ensures before[k].0 != cols[n - 1].name
      {
        var i := SentFrom(cols, t, n - 1, before[k]);
      }
    }
  }

  /** With distinct columns, an assignment list gives column `i` its cell, or nothing. */
  lemma {:induction false} SentGives(cols: seq<RelColumn>, t: TupleData, n: nat, i: nat)
    requires i < |cols| == |t| && n <= |cols| && DistinctCols(cols)
    ensures Given(Sent(cols, t, n), cols[i].name) ==
            if i < n && !t[i].UnchangedToast? then Some(ValueOf(t[i])) else None
  {
    if n == 0 {
    } else {
      SentGives(cols, t, n - 1, i);
      var before, after := Sent(cols, t, n - 1), Sent(cols, t, n);
      if t[n - 1].UnchangedToast? {
        assert after == before;
      } else {
        assert after[..|after| - 1] == before;
      }
    }
  }

  lemma {:induction false} GivenNames(ps: ColPairs, name: string) returns (p: ColPair)
    requires Given(ps, name).Some?
    ensures p in ps && p.0 == name
  {
    p := ps[|ps| - 1];
    if p.0 == name {
    } else {
      p := GivenNames(ps[..|ps| - 1], name);
    }
  }

  lemma NamedColumn(rel: Rel, i: nat)
    requires i < |rel.columns|
    ensures rel.columns[i].name in RelNames(rel)
  {
  }

  lemma ColumnNamed(rel: Rel, name: string) returns (i: nat)
    requires name in RelNames(rel)
    ensures i < |rel.columns| && rel.columns[i].name == name
  {
    var c :| c in rel.columns && c.name == name;
    i :| 0 <= i < |rel.columns| && rel.columns[i] == c;
  }

  /** A cell marked unchanged is shown by nothing, and its column did not change. */
  predicate KeepsToast(rel: Rel, t: TupleData, before: Row, after: Row)
    requires |t| == |rel.columns|
  {
    forall i | 0 <= i < |t| && t[i].UnchangedToast? ::
      var n := rel.columns[i].name; n in before && n in after && before[n] == after[n]
  }

  lemma AssignSentAt(rel: Rel, t: TupleData, before: Row, after: Row, n: string)
    requires DistinctCols(rel.columns) && RowOf(rel, before) && RowOf(rel, after) && Shows(rel, t, after)
    requires KeepsToast(rel, t, before, after)
    ensures var r := Assign(before, Sent(rel.columns, t, |t|));
            (n in r <==> n in after) && (n in after ==> r[n] == after[n])
  {
    var ps := Sent(rel.columns, t, |t|);
    AssignValues(before, ps);
    if n in RelNames(rel) {
      var i := ColumnNamed(rel, n);
      SentGives(rel.columns, t, |t|, i);
    } else if Given(ps, n).Some? {
      var p := GivenNames(ps, n);
      var i := SentFrom(rel.columns, t, |t|, p);
      NamedColumn(rel, i);
      assert false;
    }
  }

  /** Assigning the sent cells of a tuple turns the old row into the row the tuple shows,
      provided the cells not sent did not change. */
  lemma AssignSent(rel: Rel, t: TupleData, before: Row, after: Row)
    requires DistinctCols(rel.columns) && RowOf(rel, before) && RowOf(rel, after) && Shows(rel, t, after)
    requires KeepsToast(rel, t, before, after)
    ensures Assign(before, Sent(rel.columns, t, |t|)) == after
  {
    forall n
      ensures n in Assign(before, Sent(rel.columns, t, |t|)) <==> n in after
      ensures n in after ==> Assign(before, Sent(rel.columns, t, |t|))[n] == after[n]
    {
      AssignSentAt(rel, t, before, after, n);
    }
  }

  // ---- One change ----

  /** The local table has the relation's columns, and its rows are rows of them. */
  ghost predicate Ready(rel: Rel, db: Db) {
    && DistinctCols(rel.columns)
    && TargetOf(rel) in db
    && ColNames(db[TargetOf(rel)].cols) == RelNames(rel)
    && forall row | row in db[TargetOf(rel)].rows :: RowOf(rel, row)
  }

  function WithRows(db: Db, t: Target, rows: multiset<Row>): Db
    requires t in db
  {
    db[t := db[t].(rows := rows)]
  }

  /** The table with these rows, unless some of them clash. */
  function Accepted(db: Db, t: Target, rows: multiset<Row>): Option<Db>
    requires t in db
  {
    var after := WithRows(db, t, rows);
    if ClashFree(after[t]) then Some(after) else None
  }

  function EditOf(s: Stmt): Edit
    requires s.UpdateRows? || s.DeleteRows?
  {
    if s.UpdateRows? then SetWhere(s.conds, s.sets) else DeleteWhere(s.conds)
  }

  /** The statement changes no row but the one it is meant for. */
  ghost predicate OnlyTarget(rows: multiset<Row>, c: Change, s: Stmt)
    requires c.Inserted? || s.UpdateRows? || s.DeleteRows?
  {
    c.Inserted? || forall row | row in rows - multiset{c.before} :: EditRow(EditOf(s), row) == Some(row)
  }

  lemma InsertRuns(rel: Rel, db: Db, c: Change, t: TupleData)
    requires Ready(rel, db) && c.Inserted? && RowOf(rel, c.row) && Shows(rel, t, c.row) && !ToastIn(t, |t|)
    ensures var row := Sent(rel.columns, t, |t|);
            var s := InsertRow(TargetOf(rel), Map(NameOf, row), Map(PairValue, row));
            ExecStmt(db, s) == Accepted(db, TargetOf(rel), ApplyChange(db[TargetOf(rel)].rows, c))
  {
    hide ClashFree;
    hide Sent;
    var row, table := Sent(rel.columns, t, |t|), db[TargetOf(rel)];
    SentDistinct(rel.columns, t, |t|);
    SentKnown(rel, t, table);
    assert Zip(Map(NameOf, row), Map(PairValue, row)) == row;
    AssignSent(rel, t, NullRow(table), c.row);
  }

  lemma InsertRefines(rel: Rel, identity: set<string>, db: Db, c: Change, m: Msg)
    requires Marks(rel, identity) && Ready(rel, db) && c.Inserted? && Describes(rel, identity, c, m)
    ensures PlanOf(rel, m).Success?
    ensures ExecText(db, Print(PlanOf(rel, m).value.stmt)) ==
            (if rel.columns == [] then None
             else Accepted(db, TargetOf(rel), ApplyChange(db[TargetOf(rel)].rows, c)))
  {
    hide ClashFree;
    var t, table := m.after, db[TargetOf(rel)];
    var row := Sent(rel.columns, t, |t|);
    var s := PlanOf(rel, m).value.stmt;
    SentAll(rel.columns, t, |t|);
    ParseInvertsPrint(s);
    if rel.columns == [] {
      NoColumns(s);
    } else {
      InsertRuns(rel, db, c, t);
    }
  }

  lemma {:induction false} SentAll(cols: seq<RelColumn>, t: TupleData, n: nat)
    requires n <= |cols| == |t| && !ToastIn(t, |t|)
    ensures |Sent(cols, t, n)| == n
  {
    if n == 0 {
    } else {
      SentAll(cols, t, n - 1);
    }
  }

  /** `INSERT INTO t () VALUES ()` is not a statement. */
  lemma NoColumns(s: Stmt)
    requires s.InsertRow? && s.cols == [] && s.vals == []
    ensures ParseStmt(Print(s)) == None
  {
    var r2 := ") VALUES (" + "" + ")";
    var r1 := " (" + r2;
    var body := PrintTarget(s.target) + r1;
    assert Map(Ident, s.cols) == [] && Map(PrintValue, s.vals) == [];
    assert Print(s) == "INSERT INTO " + body;
    EatBack("INSERT INTO ", body);
    TargetBack(s.target, r1);
    EatBack(" (", r2);
    assert r2[0] == ')';
    assert ParseIdent(r2) == None;
  }

  lemma SentKnown(rel: Rel, t: TupleData, table: Table)
    requires ColNames(table.cols) == RelNames(rel) && |t| == |rel.columns|
    ensures Known(table, Map(NameOf, Sent(rel.columns, t, |t|)))
  {
    var row := Sent(rel.columns, t, |t|);
    forall n | n in Map(NameOf, row)
      ensures n in ColNames(table.cols)
    {
      var k :| 0 <= k < |row| && row[k].0 == n;
      var i := SentFrom(rel.columns, t, |t|, row[k]);
      assert rel.columns[i] in rel.columns;
    }
  }

  /** A WHERE clause that runs on the table and selects the row. */
  ghost predicate Finds(conds: seq<Cond>, table: Table, row: Row) {
    conds != [] && Known(table, Map(CondCol, conds)) && Selects(conds, row)
  }

  /** A SET list that runs on the table and turns one row into the other. */
  ghost predicate Turns(sets: ColPairs, table: Table, before: Row, after: Row) {
    && sets != [] && Distinct(Map(NameOf, sets)) && Known(table, Map(NameOf, sets))
    && Assign(before, sets) == after
  }

  lemma FullImageAgrees(rel: Rel, t: TupleData, row: Row)
    requires RowOf(rel, row) && Shows(rel, t, row) && SomeSent(t)
    ensures Sent(rel.columns, t, |t|) != [] && Agrees(row, Sent(rel.columns, t, |t|))
  {
    var i :| 0 <= i < |t| && !t[i].UnchangedToast?;
    SentHas(rel.columns, t, |t|, i);
    forall p | p in Sent(rel.columns, t, |t|)
      ensures p.0 in row && row[p.0] == p.1
    {
      var j := SentFrom(rel.columns, t, |t|, p);
    }
  }

  /** The flag says which columns are of the identity. */
  lemma MarkedIsKey(rel: Rel, identity: set<string>, i: nat)
    requires Marks(rel, identity) && i < |rel.columns|
    ensures IsKey(rel.columns[i]) <==> rel.columns[i].name in identity
  {
    assert rel.columns[i] in rel.columns;
  }

  lemma KeyImageAgrees(rel: Rel, identity: set<string>, t: TupleData, row: Row)
    requires Marks(rel, identity) && RowOf(rel, row) && ShowsKey(rel, identity, t, row)
    ensures !ToastKeyIn(rel.columns, t, |t|)
    ensures Keys(rel.columns, t, |t|) != [] && Agrees(row, Keys(rel.columns, t, |t|))
  {
    forall i | 0 <= i < |t|
      ensures IsKey(rel.columns[i]) <==> rel.columns[i].name in identity
    {
      MarkedIsKey(rel, identity, i);
    }
    var n :| n in identity;
    var i := ColumnNamed(rel, n);
    KeysHave(rel.columns, t, |t|, i);
    forall p | p in Keys(rel.columns, t, |t|)
      ensures p.0 in row && row[p.0] == p.1
    {
      var j := KeysFrom(rel.columns, t, |t|, p);
    }
  }

  lemma SelectedKnows(conds: seq<Cond>, row: Row, table: Table)
    requires Selects(conds, row) && row.Keys == ColNames(table.cols)
    ensures Known(table, Map(CondCol, conds))
  {
    forall n | n in Map(CondCol, conds)
      ensures n in ColNames(table.cols)
    {
      var k :| 0 <= k < |conds| && CondCol(conds[k]) == n;
      assert Holds(row, conds[k]);
    }
  }

  /** The WHERE clause of a described change can be built, names known columns, and selects
      the row the change is about. */
  lemma WhereFindsTarget(rel: Rel, identity: set<string>,
      key: Option<TupleData>, before: Option<TupleData>, after: Option<TupleData>, row: Row, table: Table)
    requires Marks(rel, identity) && RowOf(rel, row) && ColNames(table.cols) == RelNames(rel)
    requires Identifies(rel, identity, key, before, after, row)
    ensures WherePlan(rel, key, before, after).Success?
    ensures Finds(WherePlan(rel, key, before, after).value.conds, table, row)
  {
    if before.Some? {
      FullImageAgrees(rel, before.value, row);
    } else {
      KeyImageAgrees(rel, identity, if key.Some? then key.value else after.value, row);
    }
    WhereSelects(rel, key, before, after, row);
    SelectedKnows(WherePlan(rel, key, before, after).value.conds, row, table);
  }

  lemma Cancel(a: multiset<Row>, b: multiset<Row>, x: multiset<Row>)
    ensures a + x == b + x <==> a == b
  {
    assert (a + x) - x == a && (b + x) - x == b;
  }

  lemma SameRows(db: Db, t: Target, a: multiset<Row>, b: multiset<Row>)
    requires t in db
    ensures WithRows(db, t, a) == WithRows(db, t, b) <==> a == b
  {
    if WithRows(db, t, a) == WithRows(db, t, b) {
      assert WithRows(db, t, a)[t].rows == WithRows(db, t, b)[t].rows;
    }
  }

  /** Local and upstream bags agree after an UPDATE or DELETE exactly when every other row
      is left alone. */
  lemma RewriteMeetsChange(rows: multiset<Row>, c: Change, s: Stmt)
    requires (c.Updated? && s.UpdateRows?) || (c.Deleted? && s.DeleteRows?)
    requires c.before in rows && Selects(s.conds, c.before)
    requires c.Updated? ==> Assign(c.before, s.sets) == c.after
    ensures Rewrite(rows, EditOf(s)) == ApplyChange(rows, c) <==> OnlyTarget(rows, c, s)
  {
    hide Rewrite;
    var e, others := EditOf(s), rows - multiset{c.before};
    assert rows == others + multiset{c.before};
    RewriteAdd(others, c.before, e);
    RewriteFixedIff(others, e);
    assert ApplyChange(rows, c) == others + Bag(EditRow(e, c.before));
    Cancel(Rewrite(others, e), others, Bag(EditRow(e, c.before)));
  }

  lemma PlanOfUpdate(rel: Rel, m: Msg)
    requires m.Update?
    ensures PlanOf(rel, m) == UpdatePlan(rel, m.key, m.before, m.after)
  {
    hide UpdatePlan;
  }

  lemma UpdateStmt(rel: Rel, identity: set<string>, table: Table, c: Change, m: Msg)
    requires DistinctCols(rel.columns) && ColNames(table.cols) == RelNames(rel)
    requires Marks(rel, identity) && c.Updated? && Describes(rel, identity, c, m)
    ensures PlanOf(rel, m).Success?
    ensures PlanOf(rel, m).value.stmt.UpdateRows? && PlanOf(rel, m).value.stmt.target == TargetOf(rel)
    ensures Finds(PlanOf(rel, m).value.stmt.conds, table, c.before)
    ensures Turns(PlanOf(rel, m).value.stmt.sets, table, c.before, c.after)
  {
    hide WherePlan;
    hide UpdatePlan;
    hide Identifies;
    hide Turns;
    hide Finds;
    hide RowOf;
    hide DistinctCols;
    hide Sent;
    PlanOfUpdate(rel, m);
    FullImageAgrees(rel, m.after, c.after);
    WhereFindsTarget(rel, identity, m.key, m.before, Some(m.after), c.before, table);
    UpdateSets(rel, table, m.after, c.before, c.after);
    UpdatePlanIs(rel, m.key, m.before, m.after);
  }

  lemma UpdatePlanIs(rel: Rel, key: Option<TupleData>, before: Option<TupleData>, t: TupleData)
    requires |t| == |rel.columns| && Sent(rel.columns, t, |t|) != []
    requires WherePlan(rel, key, before, Some(t)).Success?
    ensures var w, row := WherePlan(rel, key, before, Some(t)).value, Sent(rel.columns, t, |t|);
            UpdatePlan(rel, key, before, t) ==
            Success(Plan(UpdateRows(TargetOf(rel), row, w.conds), RowUpdate(TargetOf(rel), w.pairs, row)))
  {
  }

  lemma UpdateSets(rel: Rel, table: Table, t: TupleData, before: Row, after: Row)
    requires DistinctCols(rel.columns) && ColNames(table.cols) == RelNames(rel)
    requires RowOf(rel, before) && RowOf(rel, after) && Shows(rel, t, after) && SomeSent(t)
    requires KeepsToast(rel, t, before, after)
    ensures Turns(Sent(rel.columns, t, |t|), table, before, after)
  {
    FullImageAgrees(rel, t, after);
    SentDistinct(rel.columns, t, |t|);
    SentKnown(rel, t, table);
    AssignSent(rel, t, before, after);
  }

  lemma UpdateRefines(rel: Rel, identity: set<string>, db: Db, c: Change, m: Msg)
    requires Marks(rel, identity) && Ready(rel, db) && c.Updated? && Describes(rel, identity, c, m)
    requires c.before in db[TargetOf(rel)].rows
    ensures PlanOf(rel, m).Success?
    ensures PlanOf(rel, m).value.stmt.UpdateRows?
    ensures var s := PlanOf(rel, m).value.stmt;
            var rows := db[TargetOf(rel)].rows;
            && ExecText(db, Print(s)) == Accepted(db, TargetOf(rel), Rewrite(rows, EditOf(s)))
            && (WithRows(db, TargetOf(rel), Rewrite(rows, EditOf(s))) ==
                WithRows(db, TargetOf(rel), ApplyChange(rows, c))
                <==> OnlyTarget(rows, c, s))
  {
    hide PlanOf;
    hide Describes;
    hide Marks;
    hide ClashFree;
    hide Rewrite;
    hide OnlyTarget;
    UpdateStmt(rel, identity, db[TargetOf(rel)], c, m);
    var s := PlanOf(rel, m).value.stmt;
    ParseInvertsPrint(s);
    RewriteMeetsChange(db[TargetOf(rel)].rows, c, s);
    SameRows(db, TargetOf(rel), Rewrite(db[TargetOf(rel)].rows, EditOf(s)), ApplyChange(db[TargetOf(rel)].rows, c));
  }

  lemma DeleteRefines(rel: Rel, identity: set<string>, db: Db, c: Change, m: Msg)
    requires Marks(rel, identity) && Ready(rel, db) && c.Deleted? && Describes(rel, identity, c, m)
    requires c.before in db[TargetOf(rel)].rows
    ensures PlanOf(rel, m).Success?
    ensures PlanOf(rel, m).value.stmt.DeleteRows?
    ensures var s := PlanOf(rel, m).value.stmt;
            var rows := db[TargetOf(rel)].rows;
            && ExecText(db, Print(s)) == Some(WithRows(db, TargetOf(rel), Rewrite(rows, EditOf(s))))
            && (WithRows(db, TargetOf(rel), Rewrite(rows, EditOf(s))) ==
                WithRows(db, TargetOf(rel), ApplyChange(rows, c))
                <==> OnlyTarget(rows, c, s))
  {
    var table := db[TargetOf(rel)];
    WhereFindsTarget(rel, identity, m.key, m.before, None, c.before, table);
    var s := PlanOf(rel, m).value.stmt;
    ParseInvertsPrint(s);
    RewriteMeetsChange(table.rows, c, s);
    SameRows(db, TargetOf(rel), Rewrite(table.rows, EditOf(s)), ApplyChange(table.rows, c));
  }

  /** The local table becomes the upstream post-image exactly when no other row is affected and
      the post-image has no clash. A statement that would make a clash is refused. */
  ghost predicate Repeats(db: Db, target: Target, c: Change, s: Stmt)
    requires target in db
  {
    var rows := db[target].rows;
    var post := WithRows(db, target, ApplyChange(rows, c));
    && (c.Inserted? || s.UpdateRows? || s.DeleteRows?)
    && (ExecText(db, Print(s)) == Some(post) <==> OnlyTarget(rows, c, s) && (c.Deleted? || ClashFree(post[target])))
  }

  lemma AcceptedIs(db: Db, t: Target, a: multiset<Row>, b: multiset<Row>)
    requires t in db
    ensures Accepted(db, t, a) == Some(WithRows(db, t, b)) <==>
            WithRows(db, t, a) == WithRows(db, t, b) && ClashFree(WithRows(db, t, b)[t])
  {
    hide ClashFree;
  }

  lemma UpdateRepeats(rel: Rel, identity: set<string>, db: Db, c: Change, m: Msg)
    requires Marks(rel, identity) && Ready(rel, db) && c.Updated? && Describes(rel, identity, c, m)
    requires c.before in db[TargetOf(rel)].rows
    ensures PlanOf(rel, m).Success? && Repeats(db, TargetOf(rel), c, PlanOf(rel, m).value.stmt)
  {
    hide PlanOf;
    hide Describes;
    hide ExecText;
    hide Rewrite;
    hide ClashFree;
    hide Accepted;
    hide OnlyTarget;
    hide WithRows;
    hide Print;
    UpdateRefines(rel, identity, db, c, m);
    var t, rows, s := TargetOf(rel), db[TargetOf(rel)].rows, PlanOf(rel, m).value.stmt;
    AcceptedIs(db, t, Rewrite(rows, EditOf(s)), ApplyChange(rows, c));
  }

  /** One row change: its statement can be built, and repeats the change. */
  lemma ChangeRefines(rel: Rel, identity: set<string>, db: Db, c: Change, m: Msg)
    requires Marks(rel, identity) && Ready(rel, db) && Describes(rel, identity, c, m) && rel.columns != []
    requires !c.Inserted? ==> c.before in db[TargetOf(rel)].rows
    ensures PlanOf(rel, m).Success?
    ensures Repeats(db, TargetOf(rel), c, PlanOf(rel, m).value.stmt)
  {
    hide PlanOf;
    hide Describes;
    hide ExecText;
    hide Rewrite;
    hide ClashFree;
    hide Print;
    match c
    case Inserted(_) => InsertRefines(rel, identity, db, c, m);
    case Updated(_, _) => UpdateRepeats(rel, identity, db, c, m);
    case Deleted(_) => DeleteRefines(rel, identity, db, c, m);
  }

  /** For a DELETE the condition says that one row, counting duplicates, is selected. */
  lemma DeleteTargetIsOnly(rows: multiset<Row>, c: Change, s: Stmt)
    requires c.Deleted? && s.DeleteRows?
    ensures OnlyTarget(rows, c, s) <==> forall row | row in rows - multiset{c.before} :: !Selects(s.conds, row)
  {
  }

  lemma DuplicateRowsDiverge() returns (rel: Rel, identity: set<string>, db: Db, row: Row, m: Msg)
    ensures Marks(rel, identity) && Ready(rel, db) && Describes(rel, identity, Deleted(row), m)
    ensures ClashFree(db[TargetOf(rel)])
    ensures db[TargetOf(rel)].rows == multiset{row} + multiset{row}
    ensures ApplyChange(db[TargetOf(rel)].rows, Deleted(row)) == multiset{row}
    ensures PlanOf(rel, m).Success?
    ensures ExecText(db, Print(PlanOf(rel, m).value.stmt)) == Some(WithRows(db, TargetOf(rel), multiset{}))
  {
    rel, identity, db, row, m := Twins();
    TwinsGo(rel, identity, db, row, m);
  }

  /** A table of one text column, identity FULL, holding 'x' twice; the deletion of one. */
  lemma Twins() returns (rel: Rel, identity: set<string>, db: Db, row: Row, m: Msg)
    ensures Marks(rel, identity) && Ready(rel, db) && Describes(rel, identity, Deleted(row), m)
    ensures ClashFree(db[TargetOf(rel)])
    ensures db[TargetOf(rel)].rows == multiset{row} + multiset{row}
  {
    rel, identity := Rel("public", "t", [RelColumn(1, "v", 25, -1)]), {"v"};
    row := map["v" := Some("x")];
    db := map[TargetOf(rel) := Table([Column("v", 25)], {}, multiset{row} + multiset{row})];
    m := Delete(7, None, Some([Text("x")]));
    assert rel.columns[0] in rel.columns && RelNames(rel) == {"v"};
    assert [Column("v", 25)][0] in [Column("v", 25)];
    assert !m.before.value[0].UnchangedToast?;
  }

  lemma TwinsGo(rel: Rel, identity: set<string>, db: Db, row: Row, m: Msg)
    requires Marks(rel, identity) && Ready(rel, db) && Describes(rel, identity, Deleted(row), m)
    requires db[TargetOf(rel)].rows == multiset{row} + multiset{row}
    ensures PlanOf(rel, m).Success?
    ensures ExecText(db, Print(PlanOf(rel, m).value.stmt)) == Some(WithRows(db, TargetOf(rel), multiset{}))
  {
    hide Rewrite;
    hide ClashFree;
    hide Print;
    DeleteRefines(rel, identity, db, Deleted(row), m);
    WhereFindsTarget(rel, identity, m.key, m.before, None, row, db[TargetOf(rel)]);
    BothGo(row, EditOf(PlanOf(rel, m).value.stmt));
  }

  lemma BothGo(row: Row, e: Edit)
    requires EditRow(e, row) == None
    ensures Rewrite(multiset{row} + multiset{row}, e) == multiset{}
  {
    RewriteAdd(multiset{}, row, e);
    RewriteAdd(multiset{row}, row, e);
    assert multiset{} + multiset{row} == multiset{row};
  }
}
