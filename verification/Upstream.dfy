/** The upstream database: transactions of row changes over a fixed set of published
    relations, and the messages that announce them. */
module Upstream {
  import opened Wrappers
  import opened PgOutput
  import opened SqlText
  import opened RowChanges
  import opened Database
  import opened Refinement

  type Catalog = map<U32, Rel>

  datatype UpChange = OnRow(relId: U32, change: Change) | Emptied(relIds: seq<U32>)

  datatype UpTxn = UpTxn(end: U64, changes: seq<UpChange>)

  function Targets(cat: Catalog, ids: seq<U32>): seq<Target>
    requires forall id | id in ids :: id in cat
  {
    seq(|ids|, i requires 0 <= i < |ids| => TargetOf(cat[ids[i]]))
  }

  /** The change is one that the upstream tables allow: among others, its row clashes with no
      other. */
  ghost predicate Applicable(cat: Catalog, db: Db, ch: UpChange) {
    match ch
    case OnRow(id, c) =>
      && id in cat && TargetOf(cat[id]) in db
      && (!c.Inserted? ==> c.before in db[TargetOf(cat[id])].rows)
      && (!c.Deleted? ==> RowOf(cat[id], if c.Inserted? then c.row else c.after))
      && (!c.Deleted? ==> Accepted(db, TargetOf(cat[id]), ApplyChange(db[TargetOf(cat[id])].rows, c)).Some?)
    case Emptied(ids) => ids != [] && forall id | id in ids :: id in cat
  }

  ghost function Effect(cat: Catalog, db: Db, ch: UpChange): Db
    requires Applicable(cat, db, ch)
  {
    match ch
    case OnRow(id, c) =>
      var t := TargetOf(cat[id]);
      WithRows(db, t, ApplyChange(db[t].rows, c))
    case Emptied(ids) => Cleared(db, Targets(cat, ids))
  }

  /** Every change is applicable after the ones before it. */
  ghost predicate Legal(cat: Catalog, db: Db, changes: seq<UpChange>)
    decreases changes, 0
  {
    changes == [] ||
    (Legal(cat, db, changes[..|changes| - 1]) &&
     Applicable(cat, Effects(cat, db, changes[..|changes| - 1]), changes[|changes| - 1]))
  }

  ghost function Effects(cat: Catalog, db: Db, changes: seq<UpChange>): Db
    requires Legal(cat, db, changes)
    decreases changes, 1
  {
    if changes == [] then db
    else Effect(cat, Effects(cat, db, changes[..|changes| - 1]), changes[|changes| - 1])
  }

  // ---- Messages ----

  /** The columns of the replica identity, as the relation message marks them. */
  function IdentityOf(rel: Rel): set<string> { set c | c in rel.columns && c.flags == 1 :: c.name }

  function RelIdOf(m: Msg): U32 {
    match m
    case Insert(id, _) => id
    case Update(id, _, _, _) => id
    case Delete(id, _, _) => id
    case _ => 0
  }

  /** The message announces the change. */
  predicate Tells(cat: Catalog, ch: UpChange, m: Msg) {
    match ch
    case OnRow(id, c) => id in cat && Describes(cat[id], IdentityOf(cat[id]), c, m) && RelIdOf(m) == id
    case Emptied(ids) => m == Truncate(ids)
  }

  /** The text the replica sends for the message. */
  function TextFor(cat: Catalog, m: Msg): Option<string> {
    if m.Truncate? then
      if forall id | id in m.relIds :: id in cat then Some(Print(TruncateTables(Targets(cat, m.relIds)))) else None
    else if RelIdOf(m) !in cat then None
    else
      match PlanOf(cat[RelIdOf(m)], m)
      case Success(plan) => Some(Print(plan.stmt))
      case Failure(_) => None
  }

  /** The key or the old image in the message picks out one row: no other row of the table
      is changed by the statement. */
  ghost predicate Exact(cat: Catalog, db: Db, ch: UpChange, m: Msg)
    requires Applicable(cat, db, ch) && Tells(cat, ch, m)
  {
    ch.OnRow? ==>
      match PlanOf(cat[ch.relId], m)
      case Success(plan) =>
        (ch.change.Inserted? || plan.stmt.UpdateRows? || plan.stmt.DeleteRows?) &&
        OnlyTarget(db[TargetOf(cat[ch.relId])].rows, ch.change, plan.stmt)
      case Failure(_) => true
  }

  /** Every published relation has columns, those of its identity marked, and a local table
      with those columns. */
  ghost predicate Fits(cat: Catalog, db: Db) {
    forall id | id in cat :: cat[id].columns != [] && Marks(cat[id], IdentityOf(cat[id])) && Ready(cat[id], db)
  }

  lemma RowKeepsFit(cat: Catalog, db: Db, id: U32, c: Change)
    requires Fits(cat, db) && Applicable(cat, db, OnRow(id, c))
    requires forall k | k in cat && TargetOf(cat[k]) == TargetOf(cat[id]) :: RelNames(cat[k]) == RelNames(cat[id])
    ensures Fits(cat, Effect(cat, db, OnRow(id, c)))
  {
  }

  /** Relation ids of one table agree on its columns. */
  lemma SameNames(cat: Catalog, db: Db, a: U32, b: U32)
    requires Fits(cat, db) && a in cat && b in cat && TargetOf(cat[a]) == TargetOf(cat[b])
    ensures RelNames(cat[a]) == RelNames(cat[b])
  {
  }

  lemma EffectKeepsFit(cat: Catalog, db: Db, ch: UpChange)
    requires Fits(cat, db) && Applicable(cat, db, ch)
    ensures Fits(cat, Effect(cat, db, ch))
  {
    if ch.OnRow? {
      forall k | k in cat && TargetOf(cat[k]) == TargetOf(cat[ch.relId])
        ensures RelNames(cat[k]) == RelNames(cat[ch.relId])
      {
        SameNames(cat, db, k, ch.relId);
      }
      RowKeepsFit(cat, db, ch.relId, ch.change);
    } else {
      forall k | k in cat
        ensures Ready(cat[k], Effect(cat, db, ch))
      {
        assert Ready(cat[k], db);
      }
    }
  }

  lemma {:induction false} EffectsKeepFit(cat: Catalog, db: Db, changes: seq<UpChange>)
    requires Fits(cat, db) && Legal(cat, db, changes)
    ensures Fits(cat, Effects(cat, db, changes))
  {
    if changes == [] {
    } else {
      EffectsKeepFit(cat, db, changes[..|changes| - 1]);
      EffectKeepsFit(cat, Effects(cat, db, changes[..|changes| - 1]), changes[|changes| - 1]);
    }
  }

  lemma EmptiedRepeats(cat: Catalog, db: Db, ids: seq<U32>)
    requires Fits(cat, db) && Applicable(cat, db, Emptied(ids))
    ensures ExecText(db, Print(TruncateTables(Targets(cat, ids)))) == Some(Effect(cat, db, Emptied(ids)))
  {
    var s := TruncateTables(Targets(cat, ids));
    ParseInvertsPrint(s);
    forall t | t in s.targets
      ensures t in db
    {
      var i :| 0 <= i < |ids| && t == TargetOf(cat[ids[i]]);
      assert Ready(cat[ids[i]], db);
    }
  }

  /** One announced change: its statement turns the upstream state before into the upstream
      state after. */
  lemma StatementRepeats(cat: Catalog, db: Db, ch: UpChange, m: Msg)
    requires Fits(cat, db) && Applicable(cat, db, ch) && Tells(cat, ch, m) && Exact(cat, db, ch, m)
    ensures TextFor(cat, m).Some?
    ensures ExecText(db, TextFor(cat, m).value) == Some(Effect(cat, db, ch))
  {
    hide ExecText;
    if ch.OnRow? {
      assert Ready(cat[ch.relId], db);
      ChangeRefines(cat[ch.relId], IdentityOf(cat[ch.relId]), db, ch.change, m);
    } else {
      EmptiedRepeats(cat, db, ch.relIds);
    }
  }

  // ---- A whole transaction ----

  /** The messages announce the changes one by one, each picking out its row. */
  ghost predicate Announces(cat: Catalog, db: Db, changes: seq<UpChange>, ms: seq<Msg>)
    requires Legal(cat, db, changes)
  {
    |ms| == |changes| &&
    (changes == [] ||
     var n := |changes| - 1;
     && Announces(cat, db, changes[..n], ms[..n])
     && Tells(cat, changes[n], ms[n]) && Exact(cat, Effects(cat, db, changes[..n]), changes[n], ms[n]))
  }

  /** The texts of all the messages; None if one of them has none. */
  function Texts(cat: Catalog, ms: seq<Msg>): Option<seq<string>> {
    if ms == [] then Some([])
    else
      var before :- Texts(cat, ms[..|ms| - 1]);
      var text :- TextFor(cat, ms[|ms| - 1]);
      Some(before + [text])
  }

  /** From the upstream state before any transaction of inserts, updates, deletes and
      truncates, the statements printed for its messages reach the upstream state after. */
  lemma {:induction false} TransactionRepeats(cat: Catalog, db: Db, changes: seq<UpChange>, ms: seq<Msg>)
    requires Fits(cat, db) && Legal(cat, db, changes) && Announces(cat, db, changes, ms)
    ensures Texts(cat, ms).Some?
    ensures RunScript(db, Texts(cat, ms).value) == Some(Effects(cat, db, changes))
  {
    hide ExecText;
    hide TextFor;
    hide Fits;
    hide Effect;
    if changes == [] {
    } else {
      var n := |changes| - 1;
      TransactionRepeats(cat, db, changes[..n], ms[..n]);
      EffectsKeepFit(cat, db, changes[..n]);
      StatementRepeats(cat, Effects(cat, db, changes[..n]), changes[n], ms[n]);
      RunScriptSnoc(db, Texts(cat, ms[..n]).value, TextFor(cat, ms[n]).value);
    }
  }

  // ---- The log ----

  ghost predicate LegalLog(cat: Catalog, start: Db, log: seq<UpTxn>)
    decreases log, 0
  {
    log == [] ||
    (LegalLog(cat, start, log[..|log| - 1]) &&
     Legal(cat, StateAfter(cat, start, log[..|log| - 1]), log[|log| - 1].changes))
  }

  /** The upstream tables after the transactions of the log. */
  ghost function StateAfter(cat: Catalog, start: Db, log: seq<UpTxn>): Db
    requires LegalLog(cat, start, log)
    decreases log, 1
  {
    if log == [] then start
    else Effects(cat, StateAfter(cat, start, log[..|log| - 1]), log[|log| - 1].changes)
  }
}
