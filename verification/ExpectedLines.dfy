/** The map of fingerprint lines that the stream loop keeps: its keys, its lines as a bag, and
    the old tables read from them. */
module ExpectedLines {
  import opened Wrappers
  import opened SqlText
  import opened Database
  import opened Fingerprint
  import opened SchemaDelta
  import opened Replication

  /** Every line is about the table it is kept under. */
  ghost predicate Keyed(m: ExpectedMap) { forall k | k in m :: LineKey(m[k]) == Some(k) }

  lemma {:induction false} ExpectedIsKeyed(lines: seq<string>)
    ensures Keyed(Expected(lines))
  {
    if lines == [] {
    } else {
      ExpectedIsKeyed(lines[..|lines| - 1]);
    }
  }

  /** The new line of a table is about it too: no name found in a line contains a bar. */
  lemma NewLineIsKeyed(m: ExpectedMap, key: Target, cols: seq<Column>)
    requires Keyed(m) && key in m
    ensures Keyed(m[key := Line(key, cols)])
  {
    hide Line;
    PartsAreFree('|', m[key]);
    var parts := SplitOn('|', m[key]);
    assert parts[0] in parts && parts[1] in parts;
    LineStarts(key, cols);
  }

  lemma LineStarts(key: Target, cols: seq<Column>)
    requires '|' !in key.schema && '|' !in key.table
    ensures LineKey(Line(key, cols)) == Some(key)
  {
    hide Line;
    hide SplitOn;
    LineIsJoin(key, cols);
    var segs := Map(Seg, cols);
    var all := [key.schema, key.table] + segs;
    assert all[1..] == [key.table] + segs && all[1..][1..] == segs;
    if segs == [] {
      SplitFree('|', key.table);
      SplitFirst('|', key.schema, key.table);
    } else {
      SplitFirst('|', key.table, Join(segs, "|"));
      SplitFirst('|', key.schema, key.table + "|" + Join(segs, "|"));
    }
  }

  lemma SortedAreValues(m: ExpectedMap)
    requires Keyed(m)
    ensures forall l | l in SortedLines(m) :: LineKey(l).Some? && LineKey(l).value in m && m[LineKey(l).value] == l
  {
    SortedHas(m);
    forall l | l in SortedLines(m)
      ensures LineKey(l).Some? && LineKey(l).value in m && m[LineKey(l).value] == l
    {
      var k :| k in m && m[k] == l;
    }
  }

  /** The old tables read from lines with keys of their own do not depend on their order. */
  lemma OldOfBag(a: seq<string>, b: seq<string>, m: ExpectedMap)
    requires multiset(a) == multiset(b) && Keyed(m)
    requires forall l | l in b :: LineKey(l).Some? && LineKey(l).value in m && m[LineKey(l).value] == l
    ensures OldOf(a) == OldOf(b)
  {
    forall l | l in a
      ensures l in b
    {
      assert l in multiset(a);
    }
    forall l | l in b
      ensures l in a
    {
      assert l in multiset(b);
    }
    OldOfGathers(a, m);
    OldOfGathers(b, m);
  }

  lemma {:induction false} OldOfGathers(lines: seq<string>, m: ExpectedMap)
    requires Keyed(m)
    requires forall l | l in lines :: LineKey(l).Some? && LineKey(l).value in m && m[LineKey(l).value] == l
    ensures forall k :: k in OldOf(lines) <==> k in m && m[k] in lines
    ensures forall k | k in OldOf(lines) :: OldOf(lines)[k] == LineCols(m[k])
  {
    hide SplitOn;
    if lines == [] {
    } else {
      var n := |lines| - 1;
      assert lines == lines[..n] + [lines[n]] && lines[n] in lines;
      OldOfGathers(lines[..n], m);
    }
  }

  // ---- The old lines ----

  lemma {:induction false} PlaceAdds(line: string, sorted: seq<string>)
    ensures multiset(Place(line, sorted)) == multiset(sorted) + multiset{line}
  {
    if sorted == [] || Leq(line, sorted[0]) {
    } else {
      PlaceAdds(line, sorted[1..]);
      assert sorted == [sorted[0]] + sorted[1..];
    }
  }

  lemma FirstPlaced(m: ExpectedMap) returns (k: Target)
    requires m != map[]
    ensures k in m && multiset(SortedLines(m)) == multiset(SortedLines(m - {k})) + multiset{m[k]}
  {
    k :| k in m && SortedLines(m) == Place(m[k], SortedLines(m - {k}));
    PlaceAdds(m[k], SortedLines(m - {k}));
  }

  /** Which entry is placed first does not matter for the lines as a bag. */
  lemma {:induction false} SortedWithout(m: ExpectedMap, key: Target)
    requires key in m
    ensures multiset(SortedLines(m)) == multiset(SortedLines(m - {key})) + multiset{m[key]}
    decreases |m|
  {
    hide SortedLines;
    var k := FirstPlaced(m);
    if k == key {
    } else {
      SortedWithout(m - {k}, key);
      assert m - {k} - {key} == m - {key} - {k};
      SortedWithout(m - {key}, k);
    }
  }

  /** `expected.values().cloned().collect()`, in any order. */
  method OldLines(expected: ExpectedMap) returns (lines: seq<string>)
    ensures multiset(lines) == multiset(SortedLines(expected))
  {
    lines := [];
    var rest := expected;
    assert SortedLines(map[]) == [];
    while rest != map[]
      invariant multiset(lines) + multiset(SortedLines(rest)) == multiset(SortedLines(expected))
      decreases |rest|
    {
      var key :| key in rest;
      SortedWithout(rest, key);
      lines := lines + [rest[key]];
      rest := rest - {key};
    }
  }

  method FingerprintText(defs: seq<TableDef>) returns (text: string)
    ensures text == DefText(defs)
  {
    var lines := [];
    for i := 0 to |defs|
      invariant lines == Map(DefLine, defs[..i])
    {
      var line := FingerprintLine(defs[i].key.schema, defs[i].key.table, defs[i].columns);
      lines := lines + [line];
    }
    assert defs[..|defs|] == defs;
    return Join(lines, "\n");
  }
}
