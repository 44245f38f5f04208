/** The local database as far as the replica uses it: tables as bags of rows, the four
    statements it sends, and the column changes of a schema delta. */
module Database {
  import opened Wrappers
  import opened SqlText
  import opened RowChanges
  import PgOutput

  type Row = map<string, Value>

  datatype Column = Column(name: string, oid: PgOutput.U32)

  /** The columns of a primary key or of a unique index. */
  datatype Unique = Unique(cols: set<string>, nullsDistinct: bool)

  datatype Table = Table(cols: seq<Column>, uniques: set<Unique>, rows: multiset<Row>)

  type Db = map<Target, Table>

  function ColNames(cols: seq<Column>): set<string> { set c | c in cols :: c.name }

  // ---- Unique columns ----

  /** Two rows that a unique index does not take both. A NULL is like no other, unless the index
      says otherwise. */
  predicate Clash(u: Unique, a: Row, b: Row) {
    forall c | c in u.cols :: c in a && c in b && a[c] == b[c] && (u.nullsDistinct ==> a[c].Some?)
  }

  predicate Free(rows: multiset<Row>, u: Unique) {
    forall a, b | a in rows && b in rows && Clash(u, a, b) :: a == b && rows[a] == 1
  }

  /** No two rows of the table clash. */
  predicate ClashFree(table: Table) { forall u | u in table.uniques :: Free(table.rows, u) }

  // ---- Conditions and assignments on one row ----

  /** A condition selects a row only when it is true, so `=` never selects a NULL. */
  predicate Holds(row: Row, c: Cond) {
    c.col in row &&
    match c
    case IsNull(col) => row[col] == None
    case Equals(col, text) => row[col] == Some(text)
    case NotDistinct(col, v) => row[col] == v
  }

  predicate Selects(conds: seq<Cond>, row: Row) { forall c | c in conds :: Holds(row, c) }

  function Assign(row: Row, ps: ColPairs): Row {
    if ps == [] then row
    else
      var p := ps[|ps| - 1];
      Assign(row, ps[..|ps| - 1])[p.0 := p.1]
  }

  // ---- Edits of a whole table ----

  datatype Edit =
    | SetWhere(conds: seq<Cond>, sets: ColPairs)
    | DeleteWhere(conds: seq<Cond>)
    | FillColumn(name: string)
    | CutColumn(name: string)

  function EditRow(e: Edit, row: Row): Option<Row> {
    match e
    case SetWhere(conds, sets) => Some(if Selects(conds, row) then Assign(row, sets) else row)
    case DeleteWhere(conds) => if Selects(conds, row) then None else Some(row)
    case FillColumn(name) => Some(row[name := None])
    case CutColumn(name) => Some(row - {name})
  }

  function Bag(o: Option<Row>): multiset<Row> {
    match o
    case None => multiset{}
    case Some(row) => multiset{row}
  }

  ghost function Pick(m: multiset<Row>): (x: Row)
    requires m != multiset{}
    ensures x in m
  {
    var x :| x in m;
    x
  }

  /** Every row of the bag edited, each occurrence once. */
  ghost function Rewrite(m: multiset<Row>, e: Edit): multiset<Row>
    decreases |m|
  {
    if m == multiset{} then m
    else
      Rewrite(m - multiset{Pick(m)}, e) + Bag(EditRow(e, Pick(m)))
  }

  // ---- Statements ----

  predicate Distinct<T(==)>(xs: seq<T>) { forall i, j | 0 <= i < j < |xs| :: xs[i] != xs[j] }

  function Zip(cols: seq<string>, vals: seq<Value>): ColPairs
    requires |cols| == |vals|
  {
    seq(|cols|, i requires 0 <= i < |cols| => (cols[i], vals[i]))
  }

  predicate Known(table: Table, cols: seq<string>) {
    forall c | c in cols :: c in ColNames(table.cols)
  }

  function CondCol(c: Cond): string { c.col }

  function NullRow(table: Table): Row { map n | n in ColNames(table.cols) :: None }

  function Cleared(db: Db, targets: seq<Target>): Db {
    map t | t in db :: if t in targets then db[t].(rows := multiset{}) else db[t]
  }

  /** The error of a server that finds two rows that clash. */
  const UNIQUE_VIOLATION := Error.Database("23505")

  /** What the statement does to the tables when nothing clashes; None for unknown tables and
      columns and repeated columns. */
  ghost function Unchecked(db: Db, s: Stmt): Option<Db> {
    match s
    case InsertRow(t, cols, vals) =>
      if t in db && |cols| == |vals| && Distinct(cols) && Known(db[t], cols) then
        Some(db[t := db[t].(rows := db[t].rows + multiset{Assign(NullRow(db[t]), Zip(cols, vals))})])
      else None
    case UpdateRows(t, sets, conds) =>
      if t in db && Distinct(Map(NameOf, sets)) && Known(db[t], Map(NameOf, sets))
         && Known(db[t], Map(CondCol, conds)) then
        Some(db[t := db[t].(rows := Rewrite(db[t].rows, SetWhere(conds, sets)))])
      else None
    case DeleteRows(t, conds) =>
      if t in db && Known(db[t], Map(CondCol, conds)) then
        Some(db[t := db[t].(rows := Rewrite(db[t].rows, DeleteWhere(conds)))])
      else None
    case TruncateTables(ts) =>
      if forall t | t in ts :: t in db then Some(Cleared(db, ts)) else None
  }

  /** The statement puts a row beside one it clashes with. */
  ghost predicate Collides(db: Db, s: Stmt) {
    && (s.InsertRow? || s.UpdateRows?)
    && Unchecked(db, s).Some? && s.target in Unchecked(db, s).value && !ClashFree(Unchecked(db, s).value[s.target])
  }

  /** What the statement does to the tables; None where the server reports an error. */
  ghost function ExecStmt(db: Db, s: Stmt): Option<Db> { if Collides(db, s) then None else Unchecked(db, s) }

  ghost function ExecText(db: Db, text: string): Option<Db> {
    var s :- ParseStmt(text);
    ExecStmt(db, s)
  }

  /** Statements one after the other, as one transaction runs them. */
  ghost function RunScript(db: Db, stmts: seq<string>): Option<Db> {
    if stmts == [] then Some(db)
    else
      var d :- RunScript(db, stmts[..|stmts| - 1]);
      ExecText(d, stmts[|stmts| - 1])
  }

  lemma RunScriptSnoc(db: Db, stmts: seq<string>, text: string)
    ensures RunScript(db, stmts + [text]) ==
            (if RunScript(db, stmts).Some? then ExecText(RunScript(db, stmts).value, text) else None)
  {
  }

  // ---- Laws of Rewrite ----

  lemma Swap(a: multiset<Row>, b: multiset<Row>, c: multiset<Row>)
    ensures a + b + c == a + c + b
  {
  }

  lemma RewriteStep(m: multiset<Row>, e: Edit)
    requires m != multiset{}
    ensures Rewrite(m, e) == Rewrite(m - multiset{Pick(m)}, e) + Bag(EditRow(e, Pick(m)))
  {
  }

  lemma {:induction false} RewriteAdd(m: multiset<Row>, x: Row, e: Edit)
    ensures Rewrite(m + multiset{x}, e) == Rewrite(m, e) + Bag(EditRow(e, x))
    decreases |m|
  {
    var whole := m + multiset{x};
    var y := Pick(whole);
    if y == x {
      assert whole - multiset{y} == m;
    } else {
      var rest := m - multiset{y};
      assert whole - multiset{y} == rest + multiset{x};
      assert m == rest + multiset{y};
      RewriteAdd(rest, x, e);
      RewriteAdd(rest, y, e);
      Swap(Rewrite(rest, e), Bag(EditRow(e, x)), Bag(EditRow(e, y)));
      RewriteStep(whole, e);
    }
  }

  lemma {:induction false} RewriteImage(m: multiset<Row>, e: Edit, y: Row)
    requires y in Rewrite(m, e)
    ensures exists x :: x in m && EditRow(e, x) == Some(y)
    decreases |m|
  {
    var x := Pick(m);
    if EditRow(e, x) == Some(y) {
    } else {
      RewriteImage(m - multiset{x}, e, y);
    }
  }

  lemma {:induction false} RewriteFixed(m: multiset<Row>, e: Edit)
    requires forall x | x in m :: EditRow(e, x) == Some(x)
    ensures Rewrite(m, e) == m
    decreases |m|
  {
    if m == multiset{} {
    } else {
      var x := Pick(m);
      RewriteFixed(m - multiset{x}, e);
      assert (m - multiset{x}) + multiset{x} == m;
    }
  }

  lemma AssignTwice(row: Row, ps: ColPairs)
    ensures Assign(Assign(row, ps), ps) == Assign(row, ps)
  {
    AssignValues(row, ps);
    AssignValues(Assign(row, ps), ps);
  }

  /** The value an assignment list gives a column it names; the last mention wins. */
  function Given(ps: ColPairs, name: string): Option<Value> {
    if ps == [] then None
    else if ps[|ps| - 1].0 == name then Some(ps[|ps| - 1].1)
    else Given(ps[..|ps| - 1], name)
  }

  lemma {:induction false} AssignValues(row: Row, ps: ColPairs)
    ensures forall n ::
      && (n in Assign(row, ps) <==> n in row || Given(ps, n).Some?)
      && (n in Assign(row, ps) ==>
          Assign(row, ps)[n] == if Given(ps, n).Some? then Given(ps, n).value else row[n])
  {
    if ps == [] {
    } else {
      AssignValues(row, ps[..|ps| - 1]);
    }
  }

  /** An UPDATE or DELETE leaves a bag as it is exactly when it leaves each row as it is. */
  lemma RewriteFixedIff(m: multiset<Row>, e: Edit)
    requires e.SetWhere? || e.DeleteWhere?
    ensures Rewrite(m, e) == m <==> forall x | x in m :: EditRow(e, x) == Some(x)
  {
    if forall x | x in m :: EditRow(e, x) == Some(x) {
      RewriteFixed(m, e);
    }
    if Rewrite(m, e) == m {
      forall y | y in m
        ensures EditRow(e, y) == Some(y)
      {
        RewriteImage(m, e, y);
        var x :| x in m && EditRow(e, x) == Some(y);
        if e.SetWhere? && Selects(e.conds, x) {
          AssignTwice(x, e.sets);
        }
      }
    }
  }
}
