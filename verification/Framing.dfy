/** Statements that run on some tables do the same among more tables, and leave those alone. */
module Framing {
  import opened Wrappers
  import opened SqlText
  import opened RowChanges
  import opened Database

  /** The tables of `part`, among others. */
  ghost predicate Embeds(all: Db, part: Db) { forall t | t in part :: t in all && all[t] == part[t] }

  /** `part` became `partAfter` among `all`, and nothing else happened. */
  ghost predicate Frames(part: Db, all: Db, partAfter: Db, allAfter: Db) {
    && Embeds(allAfter, partAfter) && partAfter.Keys == part.Keys && allAfter.Keys == all.Keys
    && forall t | t in all && t !in part :: allAfter[t] == all[t]
  }

  lemma StatementFrames(part: Db, all: Db, text: string)
    requires Embeds(all, part) && ExecText(part, text).Some?
    ensures ExecText(all, text).Some?
    ensures Frames(part, all, ExecText(part, text).value, ExecText(all, text).value)
  {
    hide ParseStmt;
    hide Rewrite;
    hide Known;
    hide Assign;
    var s := ParseStmt(text).value;
    match s {
      case InsertRow(t, _, _) => assert all[t] == part[t];
      case UpdateRows(t, _, _) => assert all[t] == part[t];
      case DeleteRows(t, _) => assert all[t] == part[t];
      case TruncateTables(_) =>
    }
  }

  lemma {:induction false} ScriptFrames(part: Db, all: Db, stmts: seq<string>)
    requires Embeds(all, part) && RunScript(part, stmts).Some?
    ensures RunScript(all, stmts).Some?
    ensures Frames(part, all, RunScript(part, stmts).value, RunScript(all, stmts).value)
  {
    hide ExecText;
    if stmts == [] {
    } else {
      var n := |stmts| - 1;
      ScriptFrames(part, all, stmts[..n]);
      StatementFrames(RunScript(part, stmts[..n]).value, RunScript(all, stmts[..n]).value, stmts[n]);
    }
  }
}
