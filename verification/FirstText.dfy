/** The fingerprint a first run writes for the tables it introspects is one the protocol's
    world allows, as long as no name contains a bar or a line break. */
module FirstText {
  import opened SqlText
  import opened RowChanges
  import opened Fingerprint
  import opened SchemaDelta
  import opened Replication
  import opened Upstream
  import opened Protocol
  import opened Evolution

  lemma IntrospectedWorldIsGood(w: World)
    requires Fits(w.cat, w.start) && Defines(w.defs, w.start)
    requires forall d | d in w.defs :: PlainTable(d.key, d.columns)
    requires forall id | id in w.cat ::
               exists d | d in w.defs :: d.key == TargetOf(w.cat[id]) && d.columns == Map(ColumnOf, w.cat[id].columns)
    ensures GoodWorld(w)
  {
    hide LinesOf;
    hide Fits;
    hide Line;
    DefTextReadsBack(w.defs);
    DefsAreExpected(w.defs);
    forall id | id in w.cat
      ensures var key := TargetOf(w.cat[id]);
              && key in Expected(LinesOf(CopyText(w)))
              && Expected(LinesOf(CopyText(w)))[key] == Line(key, Map(ColumnOf, w.cat[id].columns))
    {
      var d :| d in w.defs && d.key == TargetOf(w.cat[id]) && d.columns == Map(ColumnOf, w.cat[id].columns);
      assert d.key in KeysOf(w.defs) && DefLine(d) == Line(d.key, d.columns);
    }
  }
}
