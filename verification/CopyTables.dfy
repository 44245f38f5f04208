/** The batching loop of `copy_tables` (`crates/pglite/src/replica/backfill.rs`): chunks of a
    table's COPY data go to the local server in batches, one COPY statement each. */
module CopyTables {
  import opened Wrappers
  import opened PgOutput
  import opened SqlText
  import opened Database
  import opened Fates
  import opened LocalDb

  const COPY_BATCH_BYTES: nat := 1024 * 1024

  function Flat(parts: seq<Bytes>): Bytes {
    if parts == [] then [] else Flat(parts[..|parts| - 1]) + parts[|parts| - 1]
  }

  function FlatAll(groups: seq<seq<Bytes>>): seq<Bytes> {
    if groups == [] then [] else FlatAll(groups[..|groups| - 1]) + groups[|groups| - 1]
  }

  function FlatEach(groups: seq<seq<Bytes>>): (bs: seq<Bytes>)
    ensures |bs| == |groups|
  {
    seq(|groups|, i requires 0 <= i < |groups| => Flat(groups[i]))
  }

  /** The chunks cut greedily: full groups, and a rest below the batch size. */
  function Cut(chunks: seq<Bytes>): (seq<seq<Bytes>>, seq<Bytes>) {
    if chunks == [] then ([], [])
    else
      var (groups, rest) := Cut(chunks[..|chunks| - 1]);
      var run := rest + [chunks[|chunks| - 1]];
      if |Flat(run)| >= COPY_BATCH_BYTES then (groups + [run], []) else (groups, run)
  }

  /** What is sent for the chunks: a batch for each group, and one for the rest unless it has
      no bytes. */
  function BatchesOf(chunks: seq<Bytes>): seq<Bytes> {
    FlatEach(Cut(chunks).0) + if Flat(Cut(chunks).1) == [] then [] else [Flat(Cut(chunks).1)]
  }

  function Loads(t: Target, batches: seq<Bytes>): (script: seq<TableStmt>)
    ensures |script| == |batches|
  {
    seq(|batches|, i requires 0 <= i < |batches| => Load(t, batches[i]))
  }

  // ---- The cut ----

  lemma CutMore(chunks: seq<Bytes>, chunk: Bytes)
    ensures var (groups, rest) := Cut(chunks);
            Cut(chunks + [chunk]) ==
            if |Flat(rest + [chunk])| >= COPY_BATCH_BYTES then (groups + [rest + [chunk]], [])
            else (groups, rest + [chunk])
  {
    assert (chunks + [chunk])[..|chunks|] == chunks;
  }

  lemma FlatMore(parts: seq<Bytes>, part: Bytes)
    ensures Flat(parts + [part]) == Flat(parts) + part
  {
    assert (parts + [part])[..|parts|] == parts;
  }

  lemma FlatNone()
    ensures Flat([]) == [] && FlatAll([]) == [] && FlatEach([]) == [] && Cut([]) == ([], [])
  {
  }

  lemma GroupMore(groups: seq<seq<Bytes>>, group: seq<Bytes>)
    ensures FlatAll(groups + [group]) == FlatAll(groups) + group
    ensures FlatEach(groups + [group]) == FlatEach(groups) + [Flat(group)]
  {
    assert (groups + [group])[..|groups|] == groups;
  }

  /** A run of chunks that reaches the batch size with its last chunk and not before. */
  predicate Full(group: seq<Bytes>) {
    group != [] && |Flat(group[..|group| - 1])| < COPY_BATCH_BYTES <= |Flat(group)|
  }

  /** The chunks, in order and unbroken, are full groups and a rest below the size. */
  ghost predicate Grouped(chunks: seq<Bytes>, groups: seq<seq<Bytes>>, rest: seq<Bytes>) {
    && chunks == FlatAll(groups) + rest && (forall g | g in groups :: Full(g))
    && |Flat(rest)| < COPY_BATCH_BYTES
  }

  lemma {:induction false} CutGroups(chunks: seq<Bytes>)
    ensures Grouped(chunks, Cut(chunks).0, Cut(chunks).1)
  {
    hide Cut;
    hide Flat;
    hide FlatAll;
    FlatNone();
    if chunks == [] {
      assert [] + [] == chunks;
    } else {
      var n := |chunks| - 1;
      var before, c := chunks[..n], chunks[n];
      CutGroups(before);
      CutMore(before, c);
      var (groups, rest) := Cut(before);
      GroupMore(groups, rest + [c]);
      assert (rest + [c])[..|rest|] == rest && chunks == before + [c];
      assert chunks == FlatAll(groups) + (rest + [c]);
      assert FlatAll(groups) + (rest + [c]) + [] == FlatAll(groups) + (rest + [c]);
    }
  }

  /** Groups once cut stay. */
  lemma {:induction false} GroupsStay(chunks: seq<Bytes>, n: nat)
    requires n <= |chunks|
    ensures Cut(chunks[..n]).0 <= Cut(chunks).0
    decreases |chunks| - n
  {
    if n == |chunks| {
      assert chunks[..n] == chunks;
    } else {
      GroupsStay(chunks, n + 1);
      assert chunks[..n + 1] == chunks[..n] + [chunks[n]];
      CutMore(chunks[..n], chunks[n]);
    }
  }

  lemma {:induction false} FlatJoins(a: seq<Bytes>, b: seq<Bytes>)
    ensures Flat(a + b) == Flat(a) + Flat(b)
  {
    hide Flat;
    FlatNone();
    if b == [] {
      assert a + b == a;
    } else {
      var n := |b| - 1;
      FlatJoins(a, b[..n]);
      FlatMore(a + b[..n], b[n]);
      FlatMore(b[..n], b[n]);
      assert a + b == (a + b[..n]) + [b[n]] && b == b[..n] + [b[n]];
      Regroup(Flat(a), Flat(b[..n]), b[n]);
    }
  }

  lemma Regroup(a: Bytes, b: Bytes, c: Bytes)
    ensures a + b + c == a + (b + c)
  {
  }

  lemma {:induction false} EachThenFlat(groups: seq<seq<Bytes>>)
    ensures Flat(FlatEach(groups)) == Flat(FlatAll(groups))
  {
    hide Flat;
    hide FlatAll;
    hide FlatEach;
    FlatNone();
    if groups == [] {
    } else {
      var n := |groups| - 1;
      EachThenFlat(groups[..n]);
      assert groups == groups[..n] + [groups[n]];
      GroupMore(groups[..n], groups[n]);
      FlatMore(FlatEach(groups[..n]), Flat(groups[n]));
      FlatJoins(FlatAll(groups[..n]), groups[n]);
    }
  }

  /** However the data is cut into chunks: the batches together are the data, none is empty,
      and all but the last have at least the batch size. */
  lemma BatchesCarryTheData(chunks: seq<Bytes>)
    ensures var bs := BatchesOf(chunks);
            && Flat(bs) == Flat(chunks) && (forall b | b in bs :: b != [])
            && forall i | 0 <= i < |bs| - 1 :: |bs[i]| >= 1048576
  {
    hide Flat;
    hide FlatAll;
    hide Cut;
    var (groups, rest) := Cut(chunks);
    var bs := BatchesOf(chunks);
    CutGroups(chunks);
    EachThenFlat(groups);
    FlatJoins(FlatAll(groups), rest);
    if Flat(rest) == [] {
      assert Flat(chunks) == Flat(FlatAll(groups)) + [] == Flat(FlatAll(groups));
      assert bs == FlatEach(groups);
    } else {
      FlatMore(FlatEach(groups), Flat(rest));
    }
    forall i | 0 <= i < |groups|
      ensures |bs[i]| >= COPY_BATCH_BYTES
    {
      assert Full(groups[i]);
    }
  }

  /** The chunks are cut into runs, each up to the chunk with which it reaches 1048576 bytes,
      and a rest that does not; a batch is sent for each run, and for the rest if it has any
      bytes. */
  lemma BatchesAreRuns(chunks: seq<Bytes>) returns (runs: seq<seq<Bytes>>, rest: seq<Bytes>)
    ensures chunks == FlatAll(runs) + rest && |Flat(rest)| < 1048576
    ensures forall run | run in runs ::
              run != [] && |Flat(run)| >= 1048576 && |Flat(run[..|run| - 1])| < 1048576
    ensures var bs := BatchesOf(chunks);
            && |bs| == |runs| + (if Flat(rest) == [] then 0 else 1)
            && (forall i | 0 <= i < |runs| :: bs[i] == Flat(runs[i]))
            && (Flat(rest) != [] ==> bs[|runs|] == Flat(rest))
  {
    hide Flat;
    hide FlatAll;
    hide Cut;
    CutGroups(chunks);
    runs, rest := Cut(chunks).0, Cut(chunks).1;
    forall run | run in runs
      ensures run != [] && |Flat(run)| >= 1048576 && |Flat(run[..|run| - 1])| < 1048576
    {
      assert Full(run);
    }
  }

  // ---- The loop ----

  lemma LoadsMore(t: Target, batches: seq<Bytes>, batch: Bytes)
    ensures Loads(t, batches + [batch]) == Loads(t, batches) + [Load(t, batch)]
  {
  }

  lemma LoadsPrefix(t: Target, some: seq<Bytes>, all: seq<Bytes>)
    requires some <= all
    ensures Loads(t, some) == Loads(t, all)[..|some|]
  {
  }

  /** The batches sent so far are the first of those for all the chunks. */
  lemma SentIsPrefix(t: Target, chunks: seq<Bytes>, done: nat)
    requires done <= |chunks|
    ensures var sent := FlatEach(Cut(chunks[..done]).0);
            && |sent| <= |BatchesOf(chunks)|
            && Loads(t, sent) == Loads(t, BatchesOf(chunks))[..|sent|]
  {
    hide Cut;
    hide Flat;
    GroupsStay(chunks, done);
    var sent, all := FlatEach(Cut(chunks[..done]).0), BatchesOf(chunks);
    assert forall i | 0 <= i < |sent| :: sent[i] == all[i];
    LoadsPrefix(t, sent, all);
  }

  /** A group cut with the next chunk is the next batch. */
  lemma NextBatch(t: Target, chunks: seq<Bytes>, done: nat, n: nat)
    requires done < |chunks| && n == |Cut(chunks[..done]).0| < |Cut(chunks[..done + 1]).0|
    ensures var batch := Flat(Cut(chunks[..done + 1]).0[n]);
            n < |BatchesOf(chunks)| && Loads(t, BatchesOf(chunks))[n] == Load(t, batch)
  {
    hide Cut;
    hide Flat;
    GroupsStay(chunks, done + 1);
  }

  /** The batch that the next chunk fills is the next statement. */
  lemma NextSent(t: Target, chunks: seq<Bytes>, done: nat)
    requires done < |chunks| && |Flat(Cut(chunks[..done]).1 + [chunks[done]])| >= COPY_BATCH_BYTES
    ensures var sent, script := FlatEach(Cut(chunks[..done]).0), Loads(t, BatchesOf(chunks));
            var batch := Flat(Cut(chunks[..done]).1 + [chunks[done]]);
            && |sent| < |script| && script[|sent|] == Load(t, batch)
            && script[..|sent|] == Loads(t, sent) && script[..|sent| + 1] == Loads(t, sent + [batch])
            && FlatEach(Cut(chunks[..done + 1]).0) == sent + [batch]
            && Loads(t, sent + [batch]) == Loads(t, sent) + [Load(t, batch)]
  {
    hide Cut;
    hide Flat;
    hide BatchesOf;
    assert chunks[..done + 1] == chunks[..done] + [chunks[done]];
    CutMore(chunks[..done], chunks[done]);
    GroupMore(Cut(chunks[..done]).0, Cut(chunks[..done]).1 + [chunks[done]]);
    var sent := FlatEach(Cut(chunks[..done]).0);
    LoadsMore(t, sent, Flat(Cut(chunks[..done]).1 + [chunks[done]]));
    NextBatch(t, chunks, done, |sent|);
    SentIsPrefix(t, chunks, done);
    SentIsPrefix(t, chunks, done + 1);
  }

  /** What is left over is the last batch. */
  lemma LastBatch(t: Target, chunks: seq<Bytes>)
    ensures var (groups, rest), n := Cut(chunks), |BatchesOf(chunks)|;
            && (Flat(rest) == [] ==> n == |groups|)
            && (Flat(rest) != [] ==> n == |groups| + 1 && Loads(t, BatchesOf(chunks))[|groups|] == Load(t, Flat(rest)))
  {
    hide Cut;
    hide Flat;
  }

  /** One COPY, the next statement of a script. */
  method LoadBatch(db: Server, t: Target, batch: Bytes, ghost script: seq<TableStmt>, ghost n: nat)
    returns (o: Outcome)
    requires db.Valid() && n < |script| && script[n] == Load(t, batch)
    requires CanAnswerAll(db.read, db.tables, script[n..], db.fates)
    modifies db
    ensures db.Valid() && (t in old(db.tables) ==> t in db.tables)
    ensures o.Pass? ==> RunStmt(db.read, old(db.tables), Load(t, batch)) == Some(db.tables)
    ensures o.Fail? ==>
              db.tables == old(db.tables) || RunStmt(db.read, old(db.tables), Load(t, batch)) == Some(db.tables)
    ensures o.Pass? ==> FirstFate(old(db.fates)).Runs? && db.fates == Later(old(db.fates), 1)
    ensures o.Pass? ==> CanAnswerAll(db.read, db.tables, script[n + 1..], db.fates)
    ensures old(db.fates) == [] ==> db.fates == [] && (t in old(db.tables) ==> o.Pass?)
  {
    hide CanAnswerAll;
    hide ClashFree;
    AnswersHere(db.read, db.tables, script, n, db.fates);
    o := db.Run(Load(t, batch));
  }

  /** One table: the batches are loaded one by one up to the first that fails, whose rows may
      be in although its reply is lost. `n` of them took effect. */
  method CopyTable(db: Server, t: Target, chunks: seq<Bytes>) returns (o: Outcome, ghost n: nat)
    requires db.Valid() && CanAnswerAll(db.read, db.tables, Loads(t, BatchesOf(chunks)), db.fates)
    modifies db
    ensures db.Valid()
    ensures Reached(db.read, old(db.tables), Loads(t, BatchesOf(chunks)), n, db.tables)
    ensures o.Pass? ==> n == |BatchesOf(chunks)|
    ensures o.Pass? ==> AllRun(old(db.fates), n) && db.fates == Later(old(db.fates), n)
    ensures old(db.fates) == [] ==> db.fates == [] && (t in old(db.tables) ==> o.Pass?)
  {
    hide Cut;
    hide Flat;
    hide RunAll;
    hide RunStmt;
    hide CanAnswerAll;
    hide BatchesOf;
    hide AllRun;
    hide FlatEach;
    var batch: Bytes := [];
    FlatNone();
    NothingRun(db.read, db.tables);
    n := 0;
    ghost var script := Loads(t, BatchesOf(chunks));
    ghost var sent: seq<Bytes> := [];
    assert script[0..] == script;
    NoneRan(db.fates);
    for done := 0 to |chunks|
      invariant db.Valid() && batch == Flat(Cut(chunks[..done]).1) && sent == FlatEach(Cut(chunks[..done]).0)
      invariant n == |sent| && RunAll(db.read, old(db.tables), Loads(t, sent)) == Some(db.tables)
      invariant AllRun(old(db.fates), n) && db.fates == Later(old(db.fates), n)
      invariant n <= |script| && CanAnswerAll(db.read, db.tables, script[n..], db.fates)
      invariant t in old(db.tables) ==> t in db.tables
    {
      assert chunks[..done + 1] == chunks[..done] + [chunks[done]];
      CutMore(chunks[..done], chunks[done]);
      FlatMore(Cut(chunks[..done]).1, chunks[done]);
      batch := batch + chunks[done];
      if |batch| >= COPY_BATCH_BYTES {
        NextSent(t, chunks, done);
        RunNext(db.read, old(db.tables), Loads(t, sent), Load(t, batch));
        ghost var before := db.tables;
        o := LoadBatch(db, t, batch, script, n);
        if o.Fail? {
          n := if db.tables == before then n else n + 1;
          return;
        }
        OneRan(old(db.fates), n);
        sent, n, batch := sent + [batch], n + 1, [];
      }
    }
    assert chunks[..|chunks|] == chunks;
    SentIsPrefix(t, chunks, |chunks|);
    LastBatch(t, chunks);
    o := Pass;
    if batch != [] {
      LoadsMore(t, sent, batch);
      RunNext(db.read, old(db.tables), Loads(t, sent), Load(t, batch));
      assert script[..n + 1] == script == script[..n] + [script[n]];
      ghost var before := db.tables;
      o := LoadBatch(db, t, batch, script, n);
      if o.Pass? {
        OneRan(old(db.fates), n);
      }
      n := if o.Pass? || db.tables != before then n + 1 else n;
    } else {
      assert script[..n] == script;
    }
  }
}
