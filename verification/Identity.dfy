/** What the conditions of a statement and the change reported for it name: the identity
    columns, or the columns that were sent, with the values of the row. */
module Identity {
  import opened Wrappers
  import opened PgOutput
  import opened SqlText
  import opened RowChanges
  import opened Database
  import opened Refinement

  /** The columns a list of pairs names. */
  function Named(ps: ColPairs): set<string> { set p | p in ps :: p.0 }

  /** The columns whose value was sent. */
  function SentNames(rel: Rel, t: TupleData): set<string>
    requires |t| == |rel.columns|
  {
    set i | 0 <= i < |t| && !t[i].UnchangedToast? :: rel.columns[i].name
  }

  /** The columns by which a message tells the row: those of the FULL image, or the identity. */
  function TellingNames(rel: Rel, identity: set<string>, before: Option<TupleData>): set<string>
    requires before.Some? ==> |before.value| == |rel.columns|
  {
    if before.Some? then SentNames(rel, before.value) else identity
  }

  // ---- The pairs ----

  lemma SentPairs(rel: Rel, t: TupleData)
    requires |t| == |rel.columns|
    ensures Named(Sent(rel.columns, t, |t|)) == SentNames(rel, t)
    ensures Sent(rel.columns, t, |t|) == [] <==> !SomeSent(t)
  {
    var ps := Sent(rel.columns, t, |t|);
    forall p | p in ps
      ensures p.0 in SentNames(rel, t) && SomeSent(t)
    {
      var i := SentFrom(rel.columns, t, |t|, p);
    }
    forall i | 0 <= i < |t| && !t[i].UnchangedToast?
      ensures rel.columns[i].name in Named(ps)
    {
      SentHas(rel.columns, t, |t|, i);
    }
    if ps != [] {
      assert ps[0] in ps;
    }
  }

  lemma KeyPairs(rel: Rel, identity: set<string>, t: TupleData)
    requires Marks(rel, identity) && |t| == |rel.columns|
    ensures Named(Keys(rel.columns, t, |t|)) == identity
    ensures Keys(rel.columns, t, |t|) == [] <==> identity == {}
  {
    var ps := Keys(rel.columns, t, |t|);
    forall p | p in ps
      ensures p.0 in identity
    {
      var i := KeysFrom(rel.columns, t, |t|, p);
      MarkedIsKey(rel, identity, i);
    }
    forall n | n in identity
      ensures n in Named(ps)
    {
      var i := ColumnNamed(rel, n);
      MarkedIsKey(rel, identity, i);
      KeysHave(rel.columns, t, |t|, i);
    }
    if ps != [] {
      assert ps[0] in ps;
    }
  }

  /** An identity cell whose value was not sent. */
  predicate IdentityUnsent(rel: Rel, identity: set<string>, t: TupleData)
    requires |t| == |rel.columns|
  {
    exists i :: 0 <= i < |t| && rel.columns[i].name in identity && t[i].UnchangedToast?
  }

  lemma UnsentKey(rel: Rel, identity: set<string>, t: TupleData)
    requires Marks(rel, identity) && |t| == |rel.columns|
    ensures ToastKeyIn(rel.columns, t, |t|) <==> IdentityUnsent(rel, identity, t)
  {
    forall i | 0 <= i < |t|
      ensures IsKey(rel.columns[i]) <==> rel.columns[i].name in identity
    {
      MarkedIsKey(rel, identity, i);
    }
  }

  // ---- The WHERE clause ----

  /** One condition for a pair: null-safe on the FULL path, `=` or `IS NULL` on the key path. */
  predicate CondFor(full: bool, c: Cond, p: ColPair) {
    if full then c == NotDistinct(p.0, p.1)
    else if p.1.Some? then c == Equals(p.0, p.1.value)
    else c == IsNull(p.0)
  }

  /** The clause has one condition for each pair, and the pairs name exactly the identity
      columns, or on the FULL path exactly the columns that were sent. */
  lemma WhereNames(
      rel: Rel, identity: set<string>, key: Option<TupleData>, before: Option<TupleData>, after: Option<TupleData>)
    requires Marks(rel, identity) && WherePlan(rel, key, before, after).Success?
    ensures var w := WherePlan(rel, key, before, after).value;
            && (before.Some? ==> |before.value| == |rel.columns|)
            && Named(w.pairs) == TellingNames(rel, identity, before) && w.pairs != []
            && |w.conds| == |w.pairs|
            && forall k | 0 <= k < |w.conds| :: CondFor(before.Some?, w.conds[k], w.pairs[k])
  {
    if before.Some? {
      SentPairs(rel, before.value);
    } else {
      KeyPairs(rel, identity, if key.Some? then key.value else after.value);
    }
  }

  /** A clause is built unless the tuple does not fit the relation, nothing or not every
      identity column was sent (a protocol error), or there is no tuple or no identity (the
      replica halts). */
  lemma WhereOutcome(
      rel: Rel, identity: set<string>, key: Option<TupleData>, before: Option<TupleData>, after: Option<TupleData>)
    requires Marks(rel, identity)
    ensures var r := WherePlan(rel, key, before, after);
            var tuple := if before.Some? then before else if key.Some? then key else after;
            match tuple
            case None => r == Failure(ReplicaHalted)
            case Some(t) =>
              if |t| != |rel.columns| then r == Failure(Protocol)
              else if before.Some? then if SomeSent(t) then r.Success? else r == Failure(Protocol)
              else if IdentityUnsent(rel, identity, t) then r == Failure(Protocol)
              else if identity == {} then r == Failure(ReplicaHalted)
              else r.Success?
  {
    var tuple := if before.Some? then before else if key.Some? then key else after;
    if tuple.Some? && |tuple.value| == |rel.columns| {
      SentPairs(rel, tuple.value);
      KeyPairs(rel, identity, tuple.value);
      UnsentKey(rel, identity, tuple.value);
    }
  }

  // ---- The reported change ----

  /** The report says what was done to which row: its key names the row before by the columns
      the message tells it by, its row gives the sent columns of the row after, and the other
      columns are as before. */
  ghost predicate ReportSays(rel: Rel, identity: set<string>, c: Change, m: Msg, r: RowChange)
    requires Describes(rel, identity, c, m)
  {
    r.target == TargetOf(rel) &&
    match c
    case Inserted(row) => r.RowInsert? && Agrees(row, r.row) && Named(r.row) == row.Keys
    case Updated(before, after) =>
      && r.RowUpdate?
      && Agrees(before, r.key) && Named(r.key) == TellingNames(rel, identity, m.before)
      && Agrees(after, r.row) && Named(r.row) == SentNames(rel, m.after)
      && forall n | n in after && n !in Named(r.row) :: n in before && before[n] == after[n]
    case Deleted(before) =>
      r.RowDelete? && Agrees(before, r.key) && Named(r.key) == TellingNames(rel, identity, m.before)
  }

  lemma SentAgrees(rel: Rel, t: TupleData, row: Row)
    requires RowOf(rel, row) && Shows(rel, t, row)
    ensures Agrees(row, Sent(rel.columns, t, |t|))
  {
    forall p | p in Sent(rel.columns, t, |t|)
      ensures p.0 in row && row[p.0] == p.1
    {
      var i := SentFrom(rel.columns, t, |t|, p);
    }
  }

  lemma AllNamed(rel: Rel, t: TupleData)
    requires |t| == |rel.columns| && !ToastIn(t, |t|)
    ensures SentNames(rel, t) == RelNames(rel)
  {
    forall n | n in RelNames(rel)
      ensures n in SentNames(rel, t)
    {
      var i := ColumnNamed(rel, n);
    }
    forall i | 0 <= i < |t|
      ensures rel.columns[i].name in RelNames(rel)
    {
      NamedColumn(rel, i);
    }
  }

  /** The pairs of a described row agree with it. */
  lemma PairsAgree(rel: Rel, identity: set<string>,
      key: Option<TupleData>, before: Option<TupleData>, after: Option<TupleData>, row: Row)
    requires Marks(rel, identity) && RowOf(rel, row) && Identifies(rel, identity, key, before, after, row)
    ensures WherePlan(rel, key, before, after).Success? && Agrees(row, WherePlan(rel, key, before, after).value.pairs)
  {
    hide Marks;
    WhereBuilt(rel, identity, key, before, after, row);
    if before.Some? {
      SentAgrees(rel, before.value, row);
    } else {
      KeyImageAgrees(rel, identity, if key.Some? then key.value else after.value, row);
    }
  }

  lemma WhereBuilt(rel: Rel, identity: set<string>,
      key: Option<TupleData>, before: Option<TupleData>, after: Option<TupleData>, row: Row)
    requires Marks(rel, identity) && RowOf(rel, row) && Identifies(rel, identity, key, before, after, row)
    ensures WherePlan(rel, key, before, after).Success?
  {
    if before.Some? {
      FullImageAgrees(rel, before.value, row);
    } else {
      KeyImageAgrees(rel, identity, if key.Some? then key.value else after.value, row);
    }
  }

  lemma UnsentStays(rel: Rel, t: TupleData, before: Row, after: Row)
    requires RowOf(rel, after) && |t| == |rel.columns| && KeepsToast(rel, t, before, after)
    ensures forall n | n in after && n !in SentNames(rel, t) :: n in before && before[n] == after[n]
  {
    forall n | n in after && n !in SentNames(rel, t)
      ensures n in before && before[n] == after[n]
    {
      var i := ColumnNamed(rel, n);
      assert t[i].UnchangedToast?;
    }
  }

  lemma InsertTells(rel: Rel, identity: set<string>, c: Change, m: Msg)
    requires c.Inserted? && Describes(rel, identity, c, m)
    ensures PlanOf(rel, m).Success? && ReportSays(rel, identity, c, m, PlanOf(rel, m).value.change)
  {
    hide Agrees;
    hide SentNames;
    hide Named;
    AllNamed(rel, m.after);
    SentPairs(rel, m.after);
    SentAgrees(rel, m.after, c.row);
  }

  lemma UpdateTells(rel: Rel, identity: set<string>, c: Change, m: Msg)
    requires c.Updated? && Marks(rel, identity) && Describes(rel, identity, c, m)
    ensures PlanOf(rel, m).Success? && ReportSays(rel, identity, c, m, PlanOf(rel, m).value.change)
  {
    hide WherePlan;
    hide Marks;
    hide Agrees;
    hide Identifies;
    hide SentNames;
    hide Named;
    hide KeepsToast;
    PairsAgree(rel, identity, m.key, m.before, Some(m.after), c.before);
    WhereNames(rel, identity, m.key, m.before, Some(m.after));
    SentPairs(rel, m.after);
    SentAgrees(rel, m.after, c.after);
    UnsentStays(rel, m.after, c.before, c.after);
  }

  lemma DeleteTells(rel: Rel, identity: set<string>, c: Change, m: Msg)
    requires c.Deleted? && Marks(rel, identity) && Describes(rel, identity, c, m)
    ensures PlanOf(rel, m).Success? && ReportSays(rel, identity, c, m, PlanOf(rel, m).value.change)
  {
    hide WherePlan;
    hide Marks;
    hide Agrees;
    hide Identifies;
    PairsAgree(rel, identity, m.key, m.before, None, c.before);
    WhereNames(rel, identity, m.key, m.before, None);
  }

  /** Subscribers are told the change that the message describes. */
  lemma ReportTells(rel: Rel, identity: set<string>, c: Change, m: Msg)
    requires Marks(rel, identity) && Describes(rel, identity, c, m)
    ensures PlanOf(rel, m).Success? && ReportSays(rel, identity, c, m, PlanOf(rel, m).value.change)
  {
    hide PlanOf;
    hide Describes;
    hide ReportSays;
    hide Marks;
    match c
    case Inserted(_) => InsertTells(rel, identity, c, m);
    case Updated(_, _) => UpdateTells(rel, identity, c, m);
    case Deleted(_) => DeleteTells(rel, identity, c, m);
  }
}
