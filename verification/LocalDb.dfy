/** The embedded server seen from the replica: a table store that changes one statement at
    a time, and statements that may be rejected or whose reply may be lost. */
module LocalDb {
  import opened Wrappers
  import opened PgOutput
  import opened SqlText
  import opened Database
  import opened Fates

  // ---- Table and column changes ----

  ghost function AddColumn(table: Table, c: Column): Table {
    if c.name in ColNames(table.cols) then table
    else table.(cols := table.cols + [c], rows := Rewrite(table.rows, FillColumn(c.name)))
  }

  function WithoutName(cols: seq<Column>, name: string): seq<Column> {
    if cols == [] then []
    else (if cols[0].name == name then [] else [cols[0]]) + WithoutName(cols[1..], name)
  }

  /** A dropped column takes the keys and indexes it is part of with it. */
  ghost function DropColumn(table: Table, name: string): Table {
    if name !in ColNames(table.cols) then table
    else
      var uniques := set u | u in table.uniques && name !in u.cols;
      Table(WithoutName(table.cols, name), uniques, Rewrite(table.rows, CutColumn(name)))
  }

  // ---- COPY data ----

  const NEWLINE: Byte := 10

  /** Where the first line ends: at its newline, or at the end of the data. */
  function LineEnd(data: Bytes): (k: nat)
    ensures k <= |data| && (k < |data| ==> data[k] == NEWLINE) && NEWLINE !in data[..k]
  {
    if data == [] || data[0] == NEWLINE then 0 else 1 + LineEnd(data[1..])
  }

  /** The lines of COPY data, without their newlines. */
  function LinesIn(data: Bytes): seq<Bytes> {
    if data == [] then []
    else
      var k := LineEnd(data);
      [data[..k]] + if k == |data| then [] else LinesIn(data[k + 1..])
  }

  /** What one line of COPY data for a table says. */
  type Reader = (Target, Bytes) -> Row

  function RowsOf(read: Reader, t: Target, lines: seq<Bytes>): multiset<Row> {
    if lines == [] then multiset{}
    else RowsOf(read, t, lines[..|lines| - 1]) + multiset{read(t, lines[|lines| - 1])}
  }

  function RowsIn(read: Reader, t: Target, data: Bytes): multiset<Row> { RowsOf(read, t, LinesIn(data)) }

  /** Data made of whole lines. */
  predicate WholeLines(data: Bytes) { data == [] || data[|data| - 1] == NEWLINE }

  lemma FirstLine(line: Bytes, rest: Bytes)
    requires NEWLINE !in line
    ensures LinesIn(line + [NEWLINE] + rest) == [line] + LinesIn(rest)
  {
    var data := line + [NEWLINE] + rest;
    EndOfFirst(line, [NEWLINE] + rest);
    assert data == line + ([NEWLINE] + rest);
    assert data[..|line|] == line && data[|line| + 1..] == rest;
  }

  lemma {:induction false} EndOfFirst(line: Bytes, rest: Bytes)
    requires NEWLINE !in line && rest != [] && rest[0] == NEWLINE
    ensures LineEnd(line + rest) == |line|
  {
    if line == [] {
      assert line + rest == rest;
    } else {
      assert (line + rest)[1..] == line[1..] + rest;
      EndOfFirst(line[1..], rest);
    }
  }

  /** Whole lines begin with a line. */
  lemma {:induction false} LineAndRest(a: Bytes) returns (line: Bytes, rest: Bytes)
    requires WholeLines(a) && a != []
    ensures a == line + [NEWLINE] + rest && NEWLINE !in line && WholeLines(rest)
  {
    if a[0] == NEWLINE {
      line, rest := [], a[1..];
    } else {
      line, rest := LineAndRest(a[1..]);
      assert a == [a[0]] + a[1..];
      line := [a[0]] + line;
    }
  }

  lemma {:induction false} LinesJoin(a: Bytes, b: Bytes)
    requires WholeLines(a)
    ensures LinesIn(a + b) == LinesIn(a) + LinesIn(b)
    decreases |a|
  {
    hide LinesIn;
    if a == [] {
      NoLines();
      assert a + b == b && [] + LinesIn(b) == LinesIn(b);
    } else {
      var line, rest := LineAndRest(a);
      LinesJoin(rest, b);
      FirstLine(line, rest);
      FirstLine(line, rest + b);
      Whole(line, rest, b);
      Regroup([line], LinesIn(rest), LinesIn(b));
    }
  }

  lemma Whole(line: Bytes, rest: Bytes, b: Bytes)
    ensures line + [NEWLINE] + rest + b == line + [NEWLINE] + (rest + b)
  {
  }

  lemma NoLines()
    ensures LinesIn([]) == []
  {
  }

  lemma Regroup(a: seq<Bytes>, b: seq<Bytes>, c: seq<Bytes>)
    ensures a + b + c == a + (b + c)
  {
  }

  lemma NoRows(read: Reader, t: Target)
    ensures RowsOf(read, t, []) == multiset{}
  {
  }

  lemma RowsSnoc(read: Reader, t: Target, lines: seq<Bytes>, line: Bytes)
    ensures RowsOf(read, t, lines + [line]) == RowsOf(read, t, lines) + multiset{read(t, line)}
  {
    assert (lines + [line])[..|lines|] == lines;
  }

  lemma {:induction false} RowsOfJoin(read: Reader, t: Target, a: seq<Bytes>, b: seq<Bytes>)
    ensures RowsOf(read, t, a + b) == RowsOf(read, t, a) + RowsOf(read, t, b)
    decreases |b|
  {
    hide RowsOf;
    if b == [] {
      NoRows(read, t);
      assert a + b == a;
    } else {
      var n := |b| - 1;
      RowsOfJoin(read, t, a, b[..n]);
      RowsSnoc(read, t, a + b[..n], b[n]);
      RowsSnoc(read, t, b[..n], b[n]);
      assert b == b[..n] + [b[n]];
      Regroup(a, b[..n], [b[n]]);
    }
  }

  /** Data cut between lines carries the rows of its parts. */
  lemma RowsJoin(read: Reader, t: Target, a: Bytes, b: Bytes)
    requires WholeLines(a)
    ensures RowsIn(read, t, a + b) == RowsIn(read, t, a) + RowsIn(read, t, b)
  {
    LinesJoin(a, b);
    RowsOfJoin(read, t, LinesIn(a), LinesIn(b));
  }

  // ---- Statements on whole tables ----

  /** DROP TABLE IF EXISTS, CREATE TABLE with its primary key, CREATE UNIQUE INDEX, ADD COLUMN IF
      NOT EXISTS, DROP COLUMN IF EXISTS and COPY FROM STDIN. */
  datatype TableStmt =
    | DropTable(table: Target)
    | CreateTable(table: Target, cols: seq<Column>, pk: seq<string>)
    | CreateIndex(table: Target, index: Unique)
    | AddColumnTo(table: Target, column: Column)
    | DropColumnFrom(table: Target, name: string)
    | Load(table: Target, data: Bytes)

  /** A table is created once, and the others need theirs. */
  predicate Refuses(names: set<Target>, s: TableStmt) {
    match s
    case DropTable(_) => false
    case CreateTable(t, _, _) => t in names
    case _ => s.table !in names
  }

  /** The columns of a primary key are never NULL. */
  function PrimaryKey(pk: seq<string>): set<Unique> { if pk == [] then {} else {Unique(set c | c in pk, true)} }

  function Refusal(s: TableStmt): Error { Error.Database(if s.CreateTable? then "42P07" else "42P01") }

  /** None for a statement that is refused, and for data and indexes with rows that clash. */
  ghost function RunStmt(read: Reader, tables: Db, s: TableStmt): Option<Db> {
    if Refuses(tables.Keys, s) then None
    else
      match s
      case DropTable(t) => Some(tables - {t})
      case CreateTable(t, cols, pk) => Some(tables[t := Table(cols, PrimaryKey(pk), multiset{})])
      case CreateIndex(t, u) =>
        if Free(tables[t].rows, u) then Some(tables[t := tables[t].(uniques := tables[t].uniques + {u})]) else None
      case AddColumnTo(t, c) => Some(tables[t := AddColumn(tables[t], c)])
      case DropColumnFrom(t, name) => Some(tables[t := DropColumn(tables[t], name)])
      case Load(t, data) =>
        var table := tables[t].(rows := tables[t].rows + RowsIn(read, t, data));
        if ClashFree(table) then Some(tables[t := table]) else None
  }

  ghost function RunAll(read: Reader, tables: Db, script: seq<TableStmt>): Option<Db> {
    if script == [] then Some(tables)
    else
      var before :- RunAll(read, tables, script[..|script| - 1]);
      RunStmt(read, before, script[|script| - 1])
  }

  /** The tables are those after the first `n` statements of the script. */
  ghost predicate Reached(read: Reader, before: Db, script: seq<TableStmt>, n: nat, now: Db) {
    n <= |script| && RunAll(read, before, script[..n]) == Some(now)
  }

  lemma RunNext(read: Reader, tables: Db, script: seq<TableStmt>, s: TableStmt)
    ensures RunAll(read, tables, script + [s]) ==
            match RunAll(read, tables, script) case None => None case Some(before) => RunStmt(read, before, s)
  {
    assert (script + [s])[..|script|] == script;
  }

  lemma {:induction false} RunAppend(read: Reader, tables: Db, a: seq<TableStmt>, b: seq<TableStmt>)
    ensures RunAll(read, tables, a + b) ==
            match RunAll(read, tables, a) case None => None case Some(before) => RunAll(read, before, b)
    decreases |b|
  {
    hide RunStmt;
    if b == [] {
      assert a + b == a;
    } else {
      var n := |b| - 1;
      RunAppend(read, tables, a, b[..n]);
      assert a + b == (a + b[..n]) + [b[n]];
      RunNext(read, tables, a + b[..n], b[n]);
    }
  }

  function FirstFate(fates: seq<Fate>): Fate { if fates == [] then Runs else fates[0] }

  /** The server reports a statement done only when it could run it. */
  ghost predicate CanAnswer(read: Reader, tables: Db, s: TableStmt, fates: seq<Fate>) {
    Refuses(tables.Keys, s) || RunStmt(read, tables, s).Some? || FirstFate(fates).Rejected?
  }

  /** And so for each statement of a script, up to the first that fails. */
  ghost predicate CanAnswerAll(read: Reader, tables: Db, script: seq<TableStmt>, fates: seq<Fate>)
    decreases |script|
  {
    script == [] ||
    (&& CanAnswer(read, tables, script[0], fates)
     && var after := RunStmt(read, tables, script[0]);
        after.Some? && FirstFate(fates).Runs? ==> CanAnswerAll(read, after.value, script[1..], Later(fates, 1)))
  }

  /** The fates left after `n` statements. */
  function Later(fates: seq<Fate>, n: nat): seq<Fate> { if n <= |fates| then fates[n..] else [] }

  predicate AllRun(fates: seq<Fate>, n: nat) { forall k | 0 <= k < n && k < |fates| :: fates[k].Runs? }

  lemma {:induction false} AnswersFirst(
      read: Reader, tables: Db, script: seq<TableStmt>, more: seq<TableStmt>, fates: seq<Fate>)
    requires CanAnswerAll(read, tables, script + more, fates)
    ensures CanAnswerAll(read, tables, script, fates)
    decreases |script|
  {
    hide RunStmt;
    if script == [] {
    } else {
      var after := RunStmt(read, tables, script[0]);
      assert (script + more)[1..] == script[1..] + more;
      if after.Some? && FirstFate(fates).Runs? {
        AnswersFirst(read, after.value, script[1..], more, Later(fates, 1));
      }
    }
  }

  lemma {:induction false} AnswersThen(
      read: Reader, tables: Db, script: seq<TableStmt>, more: seq<TableStmt>, fates: seq<Fate>)
    requires CanAnswerAll(read, tables, script + more, fates) && AllRun(fates, |script|)
    requires RunAll(read, tables, script).Some?
    ensures CanAnswerAll(read, RunAll(read, tables, script).value, more, Later(fates, |script|))
    decreases |script|
  {
    hide RunStmt;
    hide RunAll;
    NothingRun(read, tables);
    if script == [] {
      assert script + more == more && Later(fates, 0) == fates;
    } else {
      assert (script + more)[1..] == script[1..] + more && script == [script[0]] + script[1..];
      RunAppend(read, tables, [script[0]], script[1..]);
      RunNext(read, tables, [], script[0]);
      assert [] + [script[0]] == [script[0]];
      AnswersThen(read, RunStmt(read, tables, script[0]).value, script[1..], more, Later(fates, 1));
      assert Later(Later(fates, 1), |script| - 1) == Later(fates, |script|);
    }
  }

  /** The next statement of the script, and those after it. */
  lemma AnswersHere(read: Reader, tables: Db, script: seq<TableStmt>, n: nat, fates: seq<Fate>)
    requires n < |script| && CanAnswerAll(read, tables, script[n..], fates)
    ensures CanAnswer(read, tables, script[n], fates)
    ensures var after := RunStmt(read, tables, script[n]);
            after.Some? && FirstFate(fates).Runs? ==>
              CanAnswerAll(read, after.value, script[n + 1..], Later(fates, 1))
  {
    hide RunStmt;
    hide CanAnswer;
    assert script[n..][0] == script[n] && script[n..][1..] == script[n + 1..];
  }

  lemma NoneRan(fates: seq<Fate>)
    ensures AllRun(fates, 0) && Later(fates, 0) == fates
  {
  }

  /** The fates after a statement that passed. */
  lemma OneRan(fates: seq<Fate>, n: nat)
    requires AllRun(fates, n) && FirstFate(Later(fates, n)).Runs?
    ensures AllRun(fates, n + 1) && Later(Later(fates, n), 1) == Later(fates, n + 1)
  {
    if n < |fates| {
      assert Later(fates, n)[0] == fates[n];
    }
  }

  lemma NothingRun(read: Reader, tables: Db)
    ensures RunAll(read, tables, []) == Some(tables)
  {
  }

  /** `names` are the tables there are; the rows are the server's own. */
  class Server {
    ghost const read: Reader
    ghost var tables: Db
    var names: set<Target>
    var fates: seq<Fate>

    ghost predicate Valid()
      reads this
    {
      names == tables.Keys
    }

    constructor (ghost read: Reader, ghost tables: Db, names: set<Target>, fates: seq<Fate>)
      requires names == tables.Keys
      ensures Valid() && this.read == read && this.tables == tables && this.fates == fates
    {
      this.read, this.tables, this.names, this.fates := read, tables, names, fates;
    }

    /** The next statement's fate; with the script used up, statements run. */
    method NextFate() returns (f: Fate)
      modifies this`fates
      ensures old(fates) == [] ==> f == Runs && fates == []
      ensures old(fates) != [] ==> f == old(fates)[0] && fates == old(fates)[1..]
    {
      if fates == [] {
        return Runs;
      }
      f := fates[0];
      fates := fates[1..];
    }

    /** One statement: a refused one changes nothing, and one whose reply is lost may have been
        done. */
    method Run(s: TableStmt) returns (o: Outcome)
      requires Valid() && CanAnswer(read, tables, s, fates)
      modifies this
      ensures Valid()
      ensures o.Pass? ==> RunStmt(read, old(tables), s) == Some(tables)
      ensures o.Pass? ==> FirstFate(old(fates)).Runs? && fates == Later(old(fates), 1)
      ensures o.Fail? ==> tables == old(tables) || RunStmt(read, old(tables), s) == Some(tables)
      ensures Refuses(old(names), s) ==> o == Fail(Refusal(s))
      ensures old(fates) == [] ==> fates == [] && (o.Pass? <==> RunStmt(read, old(tables), s).Some?)
    {
      if Refuses(names, s) {
        return Fail(Refusal(s));
      }
      var f := NextFate();
      if !f.Rejected? {
        tables := RunStmt(read, tables, s).value;
        match s {
          case DropTable(t) => names := names - {t};
          case CreateTable(t, _, _) => names := names + {t};
          case _ =>
        }
      }
      return FateResult(f);
    }
  }
}
