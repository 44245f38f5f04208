/** From a decoded row change to the statement that repeats it. The `Plan` functions give
    the statement and the reported change as values; the methods build the text in loops,
    as `Rel` in `crates/pglite/src/replica/mod.rs` does. */
module RowChanges {
  import opened Wrappers
  import opened PgOutput
  import opened SqlText

  type ColPairs = seq<ColPair>

  datatype RowChange =
    | RowInsert(target: Target, row: ColPairs)
    | RowUpdate(target: Target, key: ColPairs, row: ColPairs)
    | RowDelete(target: Target, key: ColPairs)
    | RowTruncate(target: Target)

  datatype Rel = Rel(schema: string, name: string, columns: seq<RelColumn>)

  function TargetOf(rel: Rel): Target { Target(rel.schema, rel.name) }

  // ---- Cells ----

  /** A cell whose value was not sent reads as NULL in both; callers skip or refuse it. */
  function CellLit(c: CellValue): string {
    match c
    case Null => "NULL"
    case Text(s) => Lit(s)
    case UnchangedToast => "NULL"
  }

  function ValueOf(c: CellValue): Value {
    match c
    case Null => None
    case UnchangedToast => None
    case Text(s) => Some(s)
  }

  predicate IsKey(c: RelColumn) { c.flags % 2 == 1 }

  /** The first `n` columns whose value was sent, with that value. */
  function Sent(cols: seq<RelColumn>, t: TupleData, n: nat): (ps: ColPairs)
    requires n <= |cols| == |t|
    ensures |ps| <= n
  {
    if n == 0 then []
    else
      Sent(cols, t, n - 1)
      + if t[n - 1].UnchangedToast? then [] else [(cols[n - 1].name, ValueOf(t[n - 1]))]
  }

  /** The key columns among the first `n`. */
  function Keys(cols: seq<RelColumn>, t: TupleData, n: nat): (ps: ColPairs)
    requires n <= |cols| == |t|
  {
    if n == 0 then []
    else Keys(cols, t, n - 1) + if IsKey(cols[n - 1]) then [(cols[n - 1].name, ValueOf(t[n - 1]))] else []
  }

  predicate ToastIn(t: TupleData, n: nat)
    requires n <= |t|
  {
    exists i :: 0 <= i < n && t[i].UnchangedToast?
  }

  predicate ToastKeyIn(cols: seq<RelColumn>, t: TupleData, n: nat)
    requires n <= |cols| == |t|
  {
    exists i :: 0 <= i < n && IsKey(cols[i]) && t[i].UnchangedToast?
  }

  // ---- Plans ----

  function NameOf(p: ColPair): string { p.0 }

  function PairValue(p: ColPair): Value { p.1 }

  function NullSafe(p: ColPair): Cond { NotDistinct(p.0, p.1) }

  function KeyCond(p: ColPair): Cond {
    match p.1
    case None => IsNull(p.0)
    case Some(s) => Equals(p.0, s)
  }

  datatype Plan = Plan(stmt: Stmt, change: RowChange)

  datatype Where = Where(conds: seq<Cond>, pairs: ColPairs)

  function InsertPlan(rel: Rel, t: TupleData): Result<Plan> {
    if |t| != |rel.columns| || ToastIn(t, |t|) then Failure(Protocol)
    else
      var row := Sent(rel.columns, t, |t|);
      Success(Plan(InsertRow(TargetOf(rel), Map(NameOf, row), Map(PairValue, row)),
                   RowInsert(TargetOf(rel), row)))
  }

  function WherePlan(rel: Rel, key: Option<TupleData>, before: Option<TupleData>, after: Option<TupleData>)
    : Result<Where>
  {
    if before.Some? then
      var t := before.value;
      :- Need(|t| == |rel.columns|, Protocol);
      var pairs := Sent(rel.columns, t, |t|);
      :- Need(pairs != [], Protocol);
      Success(Where(Map(NullSafe, pairs), pairs))
    else
      var source := if key.Some? then key else after;
      :- Need(source.Some?, ReplicaHalted);
      var t := source.value;
      :- Need(|t| == |rel.columns|, Protocol);
      :- Need(!ToastKeyIn(rel.columns, t, |t|), Protocol);
      var pairs := Keys(rel.columns, t, |t|);
      :- Need(pairs != [], ReplicaHalted);
      Success(Where(Map(KeyCond, pairs), pairs))
  }

  function UpdatePlan(rel: Rel, key: Option<TupleData>, before: Option<TupleData>, t: TupleData): Result<Plan> {
    if |t| != |rel.columns| then Failure(Protocol)
    else
      var w :- WherePlan(rel, key, before, Some(t));
      var row := Sent(rel.columns, t, |t|);
      :- Need(row != [], Protocol);
      Success(Plan(UpdateRows(TargetOf(rel), row, w.conds), RowUpdate(TargetOf(rel), w.pairs, row)))
  }

  function DeletePlan(rel: Rel, key: Option<TupleData>, before: Option<TupleData>): Result<Plan> {
    var w :- WherePlan(rel, key, before, None);
    Success(Plan(DeleteRows(TargetOf(rel), w.conds), RowDelete(TargetOf(rel), w.pairs)))
  }

  function PlanOf(rel: Rel, m: Msg): Result<Plan> {
    match m
    case Insert(_, t) => InsertPlan(rel, t)
    case Update(_, key, before, t) => UpdatePlan(rel, key, before, t)
    case Delete(_, key, before) => DeletePlan(rel, key, before)
    case _ => Failure(Protocol)
  }

  /** The text a plan is sent as, with the change reported to subscribers. */
  function Sql(p: Result<Plan>): Result<(string, RowChange)> {
    var plan :- p;
    Success((Print(plan.stmt), plan.change))
  }

  // ---- The loops ----

  method CheckArity(rel: Rel, t: TupleData) returns (r: Outcome)
    ensures r == Need(|t| == |rel.columns|, Protocol)
  {
    if |t| != |rel.columns| {
      return Fail(Protocol);
    }
    return Pass;
  }

  method InsertSql(rel: Rel, t: TupleData) returns (r: Result<(string, RowChange)>)
    ensures r == Sql(InsertPlan(rel, t))
  {
    var arity := CheckArity(rel, t);
    :- arity;
    var names, values, row := [], [], [];
    for i := 0 to |t|
      invariant !ToastIn(t, i) && row == Sent(rel.columns, t, i)
      invariant names == Map(Ident, Map(NameOf, row))
      invariant values == Map(PrintValue, Map(PairValue, row))
    {
      var col, cell := rel.columns[i], t[i];
      if cell.UnchangedToast? {
        return Failure(Protocol);
      }
      names := names + [Ident(col.name)];
      values := values + [CellLit(cell)];
      row := row + [(col.name, ValueOf(cell))];
    }
    var stmt := "INSERT INTO " + PrintTarget(TargetOf(rel)) + " (" + Join(names, ", ")
      + ") VALUES (" + Join(values, ", ") + ")";
    return Success((stmt, RowInsert(TargetOf(rel), row)));
  }

  /** The printed form of a `Where`. */
  function WhereSql(w: Result<Where>): Result<(string, ColPairs)> {
    var wh :- w;
    Success((Join(Map(PrintCond, wh.conds), " AND "), wh.pairs))
  }

  method WhereFull(rel: Rel, before: TupleData) returns (r: Result<(string, ColPairs)>)
    ensures r == WhereSql(WherePlan(rel, None, Some(before), None))
  {
    var arity := CheckArity(rel, before);
    :- arity;
    var conds, pairs := [], [];
    for i := 0 to |before|
      invariant pairs == Sent(rel.columns, before, i)
      invariant conds == Map(PrintCond, Map(NullSafe, pairs))
    {
      var col, cell := rel.columns[i], before[i];
      if cell.UnchangedToast? {
        continue;
      }
      conds := conds + [Ident(col.name) + " IS NOT DISTINCT FROM " + CellLit(cell)];
      pairs := pairs + [(col.name, ValueOf(cell))];
    }
    if conds == [] {
      return Failure(Protocol);
    }
    return Success((Join(conds, " AND "), pairs));
  }

  method WhereKey(rel: Rel, source: TupleData) returns (r: Result<(string, ColPairs)>)
    ensures r == WhereSql(WherePlan(rel, Some(source), None, None))
  {
    var arity := CheckArity(rel, source);
    :- arity;
    var conds, pairs := [], [];
    for i := 0 to |source|
      invariant !ToastKeyIn(rel.columns, source, i)
      invariant pairs == Keys(rel.columns, source, i)
      invariant conds == Map(PrintCond, Map(KeyCond, pairs))
    {
      var col, cell := rel.columns[i], source[i];
      if col.flags % 2 == 0 {
        continue;
      }
      match cell {
        case UnchangedToast => return Failure(Protocol);
        case Null => conds := conds + [Ident(col.name) + " IS NULL"];
        case Text(s) => conds := conds + [Ident(col.name) + " = " + Lit(s)];
      }
      pairs := pairs + [(col.name, ValueOf(cell))];
    }
    if conds == [] {
      return Failure(ReplicaHalted);
    }
    return Success((Join(conds, " AND "), pairs));
  }

  method WhereClause(rel: Rel, key: Option<TupleData>, before: Option<TupleData>, after: Option<TupleData>)
    returns (r: Result<(string, ColPairs)>)
    ensures r == WhereSql(WherePlan(rel, key, before, after))
  {
    if before.Some? {
      r := WhereFull(rel, before.value);
      return;
    }
    var source := if key.Some? then key else after;
    if source.None? {
      return Failure(ReplicaHalted);
    }
    r := WhereKey(rel, source.value);
  }

  method SetClause(rel: Rel, t: TupleData) returns (sets: seq<string>, row: ColPairs)
    requires |t| == |rel.columns|
    ensures row == Sent(rel.columns, t, |t|) && sets == Map(PrintAssignment, row)
  {
    sets, row := [], [];
    for i := 0 to |t|
      invariant row == Sent(rel.columns, t, i)
      invariant sets == Map(PrintAssignment, row)
    {
      var col, cell := rel.columns[i], t[i];
      if cell.UnchangedToast? {
        continue;
      }
      sets := sets + [Ident(col.name) + " = " + CellLit(cell)];
      row := row + [(col.name, ValueOf(cell))];
    }
  }

  method UpdateSql(rel: Rel, key: Option<TupleData>, before: Option<TupleData>, t: TupleData)
    returns (r: Result<(string, RowChange)>)
    ensures r == Sql(UpdatePlan(rel, key, before, t))
  {
    var arity := CheckArity(rel, t);
    :- arity;
    var w :- WhereClause(rel, key, before, Some(t));
    var (whereSql, keyPairs) := w;
    var sets, row := SetClause(rel, t);
    if sets == [] {
      return Failure(Protocol);
    }
    var stmt := "UPDATE " + PrintTarget(TargetOf(rel)) + " SET " + Join(sets, ", ") + " WHERE " + whereSql;
    return Success((stmt, RowUpdate(TargetOf(rel), keyPairs, row)));
  }

  method DeleteSql(rel: Rel, key: Option<TupleData>, before: Option<TupleData>)
    returns (r: Result<(string, RowChange)>)
    ensures r == Sql(DeletePlan(rel, key, before))
  {
    var w :- WhereClause(rel, key, before, None);
    var (whereSql, keyPairs) := w;
    var stmt := "DELETE FROM " + PrintTarget(TargetOf(rel)) + " WHERE " + whereSql;
    return Success((stmt, RowDelete(TargetOf(rel), keyPairs)));
  }
}
