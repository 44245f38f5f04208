/** The SQL the replica writes: its abstract syntax, its printed form, and a parser for the
    printed form. Quoting follows PostgreSQL 16, sections 4.1.1 and 4.1.2.1, with
    `standard_conforming_strings` on. */
module SqlText {
  import opened Wrappers

  /** A column value in text form; None is SQL NULL. */
  type Value = Option<string>

  datatype Target = Target(schema: string, table: string)

  datatype Cond =
    | IsNull(col: string)
    | Equals(col: string, text: string)
    | NotDistinct(col: string, value: Value)

  /** A column with the value given to it or required of it. */
  type ColPair = (string, Value)

  datatype Stmt =
    | InsertRow(target: Target, cols: seq<string>, vals: seq<Value>)
    | UpdateRows(target: Target, sets: seq<ColPair>, conds: seq<Cond>)
    | DeleteRows(target: Target, conds: seq<Cond>)
    | TruncateTables(targets: seq<Target>)

  // ---- Printing ----

  /** `s.replace(q, qq)`. */
  function Escape(q: char, s: string): string {
    if s == [] then [] else (if s[0] == q then [q, q] else [s[0]]) + Escape(q, s[1..])
  }

  function Ident(s: string): string { "\"" + Escape('\"', s) + "\"" }

  function Lit(s: string): string { "'" + Escape('\'', s) + "'" }

  function PrintValue(v: Value): string {
    match v
    case None => "NULL"
    case Some(s) => Lit(s)
  }

  function PrintTarget(t: Target): string { Ident(t.schema) + "." + Ident(t.table) }

  function PrintCond(c: Cond): string {
    match c
    case IsNull(col) => Ident(col) + " IS NULL"
    case Equals(col, text) => Ident(col) + " = " + Lit(text)
    case NotDistinct(col, v) => Ident(col) + " IS NOT DISTINCT FROM " + PrintValue(v)
  }

  function PrintAssignment(a: ColPair): string { Ident(a.0) + " = " + PrintValue(a.1) }

  function Join(parts: seq<string>, sep: string): string {
    if parts == [] then ""
    else if |parts| == 1 then parts[0]
    else parts[0] + sep + Join(parts[1..], sep)
  }

  function Map<T, U>(f: T -> U, xs: seq<T>): (ys: seq<U>)
    ensures |ys| == |xs| && forall i | 0 <= i < |xs| :: ys[i] == f(xs[i])
  {
    seq(|xs|, i requires 0 <= i < |xs| => f(xs[i]))
  }

  function Print(s: Stmt): string {
    match s
    case InsertRow(t, cols, vals) =>
      "INSERT INTO " + PrintTarget(t) + " (" + Join(Map(Ident, cols), ", ")
      + ") VALUES (" + Join(Map(PrintValue, vals), ", ") + ")"
    case UpdateRows(t, sets, conds) =>
      "UPDATE " + PrintTarget(t) + " SET " + Join(Map(PrintAssignment, sets), ", ")
      + " WHERE " + Join(Map(PrintCond, conds), " AND ")
    case DeleteRows(t, conds) =>
      "DELETE FROM " + PrintTarget(t) + " WHERE " + Join(Map(PrintCond, conds), " AND ")
    case TruncateTables(ts) => "TRUNCATE " + Join(Map(PrintTarget, ts), ", ")
  }

  /** SQL has no empty column, value, assignment, condition or table list. */
  predicate Printable(s: Stmt) {
    match s
    case InsertRow(_, cols, vals) => cols != [] && |cols| == |vals|
    case UpdateRows(_, sets, conds) => sets != [] && conds != []
    case DeleteRows(_, conds) => conds != []
    case TruncateTables(ts) => ts != []
  }

  // ---- Parsing ----

  type Parse<T> = Option<(T, string)>

  function Eat(s: string, word: string): Option<string> {
    if word <= s then Some(s[|word|..]) else None
  }

  /** The text up to the closing quote `q`, a doubled quote standing for one. */
  function Unescape(q: char, s: string): Parse<string> {
    if s == [] then None
    else if s[0] != q then
      var (t, r) :- Unescape(q, s[1..]);
      Some(([s[0]] + t, r))
    else if |s| >= 2 && s[1] == q then
      var (t, r) :- Unescape(q, s[2..]);
      Some(([q] + t, r))
    else Some(([], s[1..]))
  }

  function ParseIdent(s: string): Parse<string> {
    var r :- Eat(s, "\"");
    Unescape('\"', r)
  }

  function ParseLit(s: string): Parse<string> {
    var r :- Eat(s, "'");
    Unescape('\'', r)
  }

  function ParseValue(s: string): Parse<Value> {
    if "NULL" <= s then Some((None, s[4..]))
    else
      var (t, r) :- ParseLit(s);
      Some((Some(t), r))
  }

  function ParseTarget(s: string): Parse<Target> {
    var (schema, r1) :- ParseIdent(s);
    var r2 :- Eat(r1, ".");
    var (table, r3) :- ParseIdent(r2);
    Some((Target(schema, table), r3))
  }

  function ParseCond(s: string): Parse<Cond> {
    var (col, r1) :- ParseIdent(s);
    if " IS NULL" <= r1 then Some((IsNull(col), r1[8..]))
    else if " = " <= r1 then
      var (t, r2) :- ParseLit(r1[3..]);
      Some((Equals(col, t), r2))
    else
      var r2 :- Eat(r1, " IS NOT DISTINCT FROM ");
      var (v, r3) :- ParseValue(r2);
      Some((NotDistinct(col, v), r3))
  }

  function ParseAssignment(s: string): Parse<ColPair> {
    var (col, r1) :- ParseIdent(s);
    var r2 :- Eat(r1, " = ");
    var (v, r3) :- ParseValue(r2);
    Some(((col, v), r3))
  }

  /** One or more items with `sep` between them. */
  function ParseList<T>(item: string -> Parse<T>, sep: string, s: string): (r: Parse<seq<T>>)
    requires sep != ""
    ensures r.Some? ==> r.value.0 != []
    decreases |s|
  {
    var (x, r1) :- item(s);
    if |r1| <= |s| && sep <= r1 then
      var (xs, r2) :- ParseList(item, sep, r1[|sep|..]);
      Some(([x] + xs, r2))
    else Some(([x], r1))
  }

  function ParseInsert(s: string): Option<Stmt> {
    var (t, r1) :- ParseTarget(s);
    var r2 :- Eat(r1, " (");
    var (cols, r3) :- ParseList(ParseIdent, ", ", r2);
    var r4 :- Eat(r3, ") VALUES (");
    var (vals, r5) :- ParseList(ParseValue, ", ", r4);
    if r5 == ")" && |cols| == |vals| then Some(InsertRow(t, cols, vals)) else None
  }

  function ParseConds(s: string): Option<seq<Cond>> {
    var (conds, r) :- ParseList(ParseCond, " AND ", s);
    if r == "" then Some(conds) else None
  }

  function ParseUpdate(s: string): Option<Stmt> {
    var (t, r1) :- ParseTarget(s);
    var r2 :- Eat(r1, " SET ");
    var (sets, r3) :- ParseList(ParseAssignment, ", ", r2);
    var r4 :- Eat(r3, " WHERE ");
    var conds :- ParseConds(r4);
    Some(UpdateRows(t, sets, conds))
  }

  function ParseDelete(s: string): Option<Stmt> {
    var (t, r1) :- ParseTarget(s);
    var r2 :- Eat(r1, " WHERE ");
    var conds :- ParseConds(r2);
    Some(DeleteRows(t, conds))
  }

  function ParseTruncate(s: string): Option<Stmt> {
    var (ts, r) :- ParseList(ParseTarget, ", ", s);
    if r == "" then Some(TruncateTables(ts)) else None
  }

  function ParseStmt(s: string): (r: Option<Stmt>)
    ensures r.Some? ==> Printable(r.value)
  {
    if "INSERT INTO " <= s then ParseInsert(s[12..])
    else if "UPDATE " <= s then ParseUpdate(s[7..])
    else if "DELETE FROM " <= s then ParseDelete(s[12..])
    else if "TRUNCATE " <= s then ParseTruncate(s[9..])
    else None
  }

  // ---- Parsing inverts printing ----

  /** A quoted item may be followed by anything but another quote. */
  predicate Clean(r: string) { r == "" || (r[0] != '\"' && r[0] != '\'') }

  lemma EatBack(word: string, r: string)
    ensures Eat(word + r, word) == Some(r)
  {
  }

  lemma {:induction false} UnescapeBack(q: char, s: string, r: string)
    requires r == "" || r[0] != q
    ensures Unescape(q, Escape(q, s) + [q] + r) == Some((s, r))
  {
    var whole := Escape(q, s) + [q] + r;
    if s == [] {
      assert whole[1..] == r;
    } else {
      UnescapeBack(q, s[1..], r);
      var rest := Escape(q, s[1..]) + [q] + r;
      if s[0] == q {
        assert whole == [q, q] + rest;
        assert whole[2..] == rest;
      } else {
        assert whole == [s[0]] + rest;
        assert whole[1..] == rest;
      }
      assert [s[0]] + s[1..] == s;
    }
  }

  lemma QuotedBack(s: string, r: string)
    requires Clean(r)
    ensures ParseIdent(Ident(s) + r) == Some((s, r))
    ensures ParseLit(Lit(s) + r) == Some((s, r))
  {
    UnescapeBack('\"', s, r);
    UnescapeBack('\'', s, r);
    assert Ident(s) + r == "\"" + (Escape('\"', s) + ['\"'] + r);
    assert Lit(s) + r == "'" + (Escape('\'', s) + ['\''] + r);
    EatBack("\"", Escape('\"', s) + ['\"'] + r);
    EatBack("'", Escape('\'', s) + ['\''] + r);
  }

  lemma ValueBack(v: Value, r: string)
    requires Clean(r)
    ensures ParseValue(PrintValue(v) + r) == Some((v, r))
  {
    match v
    case None => assert ("NULL" + r)[4..] == r;
    case Some(s) =>
      QuotedBack(s, r);
      assert (Lit(s) + r)[0] == '\'';
  }

  lemma TargetBack(t: Target, r: string)
    requires Clean(r)
    ensures ParseTarget(PrintTarget(t) + r) == Some((t, r))
  {
    var rest := Ident(t.table) + r;
    assert PrintTarget(t) + r == Ident(t.schema) + ("." + rest);
    QuotedBack(t.schema, "." + rest);
    EatBack(".", rest);
    QuotedBack(t.table, r);
  }

  lemma IsNullBack(col: string, r: string)
    ensures ParseCond(PrintCond(IsNull(col)) + r) == Some((IsNull(col), r))
  {
    assert PrintCond(IsNull(col)) + r == Ident(col) + (" IS NULL" + r);
    QuotedBack(col, " IS NULL" + r);
    EatBack(" IS NULL", r);
  }

  lemma EqualsBack(col: string, text: string, r: string)
    requires Clean(r)
    ensures ParseCond(PrintCond(Equals(col, text)) + r) == Some((Equals(col, text), r))
  {
    var rest := " = " + (Lit(text) + r);
    assert PrintCond(Equals(col, text)) + r == Ident(col) + rest;
    QuotedBack(col, rest);
    assert rest[1] == '=';
    EatBack(" = ", Lit(text) + r);
    QuotedBack(text, r);
  }

  lemma NotDistinctBack(col: string, v: Value, r: string)
    requires Clean(r)
    ensures ParseCond(PrintCond(NotDistinct(col, v)) + r) == Some((NotDistinct(col, v), r))
  {
    var rest := " IS NOT DISTINCT FROM " + (PrintValue(v) + r);
    assert PrintCond(NotDistinct(col, v)) + r == Ident(col) + rest;
    QuotedBack(col, rest);
    assert rest[1] == 'I' && rest[5] == 'O';
    EatBack(" IS NOT DISTINCT FROM ", PrintValue(v) + r);
    ValueBack(v, r);
  }

  lemma CondBack(c: Cond, r: string)
    requires Clean(r)
    ensures ParseCond(PrintCond(c) + r) == Some((c, r))
  {
    match c
    case IsNull(col) => IsNullBack(col, r);
    case Equals(col, text) => EqualsBack(col, text, r);
    case NotDistinct(col, v) => NotDistinctBack(col, v, r);
  }

  lemma AssignmentBack(a: ColPair, r: string)
    requires Clean(r)
    ensures ParseAssignment(PrintAssignment(a) + r) == Some((a, r))
  {
    var rest := " = " + (PrintValue(a.1) + r);
    assert PrintAssignment(a) + r == Ident(a.0) + rest;
    QuotedBack(a.0, rest);
    EatBack(" = ", PrintValue(a.1) + r);
    ValueBack(a.1, r);
  }

  ghost predicate Inverts<T(!new)>(item: string -> Parse<T>, write: T -> string) {
    forall x: T, r: string | Clean(r) :: item(write(x) + r) == Some((x, r))
  }

  lemma {:induction false} ListBack<T(!new)>(
      item: string -> Parse<T>, write: T -> string, sep: string, xs: seq<T>, r: string)
    requires Inverts(item, write)
    requires xs != [] && sep != "" && Clean(sep) && Clean(r) && !(sep <= r)
    ensures ParseList(item, sep, Join(Map(write, xs), sep) + r) == Some((xs, r))
  {
    var parts := Map(write, xs);
    if |xs| == 1 {
      assert item(write(xs[0]) + r) == Some((xs[0], r));
      assert xs == [xs[0]];
    } else {
      var rest := Join(parts[1..], sep) + r;
      assert Join(parts, sep) + r == write(xs[0]) + (sep + rest);
      assert Clean(sep + rest);
      assert item(write(xs[0]) + (sep + rest)) == Some((xs[0], sep + rest));
      EatBack(sep, rest);
      assert parts[1..] == Map(write, xs[1..]);
      ListBack(item, write, sep, xs[1..], r);
      assert [xs[0]] + xs[1..] == xs;
    }
  }

  lemma AllInvert()
    ensures Inverts(ParseIdent, Ident) && Inverts(ParseValue, PrintValue)
    ensures Inverts(ParseTarget, PrintTarget) && Inverts(ParseCond, PrintCond)
    ensures Inverts(ParseAssignment, PrintAssignment)
  {
    forall s, r | Clean(r) ensures ParseIdent(Ident(s) + r) == Some((s, r)) {
      QuotedBack(s, r);
    }
    forall v, r | Clean(r) ensures ParseValue(PrintValue(v) + r) == Some((v, r)) {
      ValueBack(v, r);
    }
    forall t, r | Clean(r) ensures ParseTarget(PrintTarget(t) + r) == Some((t, r)) {
      TargetBack(t, r);
    }
    forall c, r | Clean(r) ensures ParseCond(PrintCond(c) + r) == Some((c, r)) {
      CondBack(c, r);
    }
    forall a, r | Clean(r) ensures ParseAssignment(PrintAssignment(a) + r) == Some((a, r)) {
      AssignmentBack(a, r);
    }
  }

  lemma InsertBack(s: Stmt)
    requires s.InsertRow? && Printable(s)
    ensures ParseStmt(Print(s)) == Some(s)
  {
    hide Inverts;
    hide ParseList;
    hide ParseTarget;
    hide PrintTarget;
    hide ParseIdent;
    hide ParseValue;
    hide Ident;
    hide PrintValue;
    AllInvert();
    var cols, vals := Join(Map(Ident, s.cols), ", "), Join(Map(PrintValue, s.vals), ", ");
    var r4 := vals + ")";
    var r3 := ") VALUES (" + r4;
    var r2 := cols + r3;
    var r1 := " (" + r2;
    var body := PrintTarget(s.target) + r1;
    assert Print(s) == "INSERT INTO " + body;
    EatBack("INSERT INTO ", body);
    TargetBack(s.target, r1);
    EatBack(" (", r2);
    assert r3[0] == ')';
    ListBack(ParseIdent, Ident, ", ", s.cols, r3);
    EatBack(") VALUES (", r4);
    ListBack(ParseValue, PrintValue, ", ", s.vals, ")");
  }

  lemma ConditionsBack(conds: seq<Cond>)
    requires conds != []
    ensures ParseConds(Join(Map(PrintCond, conds), " AND ")) == Some(conds)
  {
    AllInvert();
    var text := Join(Map(PrintCond, conds), " AND ");
    ListBack(ParseCond, PrintCond, " AND ", conds, "");
    assert text + "" == text;
  }

  lemma UpdateBack(s: Stmt)
    requires s.UpdateRows? && Printable(s)
    ensures ParseStmt(Print(s)) == Some(s)
  {
    hide Inverts;
    hide ParseList;
    hide ParseTarget;
    hide PrintTarget;
    hide ParseAssignment;
    hide PrintAssignment;
    hide ParseConds;
    AllInvert();
    var sets, conds := Join(Map(PrintAssignment, s.sets), ", "), Join(Map(PrintCond, s.conds), " AND ");
    var r3 := " WHERE " + conds;
    var r2 := sets + r3;
    var r1 := " SET " + r2;
    var body := PrintTarget(s.target) + r1;
    assert Print(s) == "UPDATE " + body;
    assert Print(s)[0] == 'U';
    EatBack("UPDATE ", body);
    TargetBack(s.target, r1);
    EatBack(" SET ", r2);
    assert r3[0] == ' ';
    ListBack(ParseAssignment, PrintAssignment, ", ", s.sets, r3);
    EatBack(" WHERE ", conds);
    ConditionsBack(s.conds);
  }

  lemma DeleteBack(s: Stmt)
    requires s.DeleteRows? && Printable(s)
    ensures ParseStmt(Print(s)) == Some(s)
  {
    hide ParseTarget;
    hide PrintTarget;
    hide ParseConds;
    var conds := Join(Map(PrintCond, s.conds), " AND ");
    var r1 := " WHERE " + conds;
    var body := PrintTarget(s.target) + r1;
    assert Print(s) == "DELETE FROM " + body;
    assert Print(s)[0] == 'D';
    EatBack("DELETE FROM ", body);
    TargetBack(s.target, r1);
    EatBack(" WHERE ", conds);
    ConditionsBack(s.conds);
  }

  lemma TruncateBack(s: Stmt)
    requires s.TruncateTables? && Printable(s)
    ensures ParseStmt(Print(s)) == Some(s)
  {
    hide Inverts;
    hide ParseList;
    hide ParseTarget;
    hide PrintTarget;
    AllInvert();
    var body := Join(Map(PrintTarget, s.targets), ", ");
    assert Print(s)[0] == 'T';
    EatBack("TRUNCATE ", body);
    ListBack(ParseTarget, PrintTarget, ", ", s.targets, "");
    assert body + "" == body;
  }

  /** A statement is read back from its own text exactly when none of its lists is empty,
      whatever quotes, keywords or separators its names and values contain. */
  lemma ParseInvertsPrint(s: Stmt)
    ensures ParseStmt(Print(s)) == Some(s) <==> Printable(s)
  {
    if Printable(s) {
      match s
      case InsertRow(_, _, _) => InsertBack(s);
      case UpdateRows(_, _, _) => UpdateBack(s);
      case DeleteRows(_, _) => DeleteBack(s);
      case TruncateTables(_) => TruncateBack(s);
    }
  }
}
