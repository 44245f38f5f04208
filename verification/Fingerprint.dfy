/** The schema fingerprint: one line `schema|table|name:oid|...` per table, kept as text in
    the state row and as a map in the stream loop (`crates/pglite/src/replica/backfill.rs`,
    `crates/pglite/src/replica/mod.rs`). */
module Fingerprint {
  import opened Wrappers
  import opened SqlText
  import opened Database
  import PgOutput

  // ---- Decimal oids ----

  function Dec(n: nat): (s: string)
    ensures s != "" && forall c | c in s :: '0' <= c <= '9'
  {
    if n < 10 then ['0' + n as char] else Dec(n / 10) + ['0' + (n % 10) as char]
  }

  function DecDigits(s: string): Option<nat> {
    if s == "" then Some(0)
    else
      var v :- DecDigits(s[..|s| - 1]);
      var c := s[|s| - 1];
      if !('0' <= c <= '9') then None
      else
        var x := v * 10 + (c as int - '0' as int);
        if x < 0x1_0000_0000 then Some(x) else None
  }

  /** `s.parse::<u32>()`. */
  function ParseOid(s: string): (r: Option<PgOutput.U32>)
  {
    var digits := if s != "" && s[0] == '+' then s[1..] else s;
    if digits == "" then None
    else
      var x :- DecDigits(digits);
      if x < 0x1_0000_0000 then Some(x) else None
  }

  lemma {:induction false} DecBack(n: nat)
    requires n < 0x1_0000_0000
    ensures DecDigits(Dec(n)) == Some(n)
  {
    if n < 10 {
      assert Dec(n)[..0] == "";
    } else {
      DecBack(n / 10);
      assert Dec(n)[..|Dec(n)| - 1] == Dec(n / 10);
    }
  }

  // ---- Splitting ----

  /** `s.split(sep)`. */
  function SplitOn(sep: char, s: string): (parts: seq<string>)
    ensures parts != []
  {
    if s == "" then [""]
    else if s[0] == sep then [""] + SplitOn(sep, s[1..])
    else
      var rest := SplitOn(sep, s[1..]);
      [[s[0]] + rest[0]] + rest[1..]
  }

  lemma {:induction false} PartsAreFree(sep: char, s: string)
    ensures forall p | p in SplitOn(sep, s) :: sep !in p
  {
    if s == "" {
    } else {
      PartsAreFree(sep, s[1..]);
      var rest := SplitOn(sep, s[1..]);
      assert rest[0] in rest && forall p | p in rest[1..] :: p in rest;
    }
  }

  lemma {:induction false} SplitFree(sep: char, p: string)
    requires sep !in p
    ensures SplitOn(sep, p) == [p]
  {
    if p == "" {
    } else {
      SplitFree(sep, p[1..]);
      assert [p[0]] + p[1..] == p;
    }
  }

  lemma {:induction false} SplitFirst(sep: char, p: string, rest: string)
    requires sep !in p
    ensures SplitOn(sep, p + [sep] + rest) == [p] + SplitOn(sep, rest)
  {
    var s := p + [sep] + rest;
    if p == "" {
      assert s[1..] == rest;
    } else {
      SplitFirst(sep, p[1..], rest);
      assert s[1..] == p[1..] + [sep] + rest;
      assert [p[0]] + p[1..] == p;
    }
  }

  lemma {:induction false} SplitJoined(sep: char, parts: seq<string>)
    requires parts != [] && forall p | p in parts :: sep !in p
    ensures SplitOn(sep, Join(parts, [sep])) == parts
  {
    if |parts| == 1 {
      SplitFree(sep, parts[0]);
    } else {
      SplitFirst(sep, parts[0], Join(parts[1..], [sep]));
      SplitJoined(sep, parts[1..]);
    }
  }

  lemma {:induction false} JoinSnoc(parts: seq<string>, p: string, sep: string)
    requires parts != []
    ensures Join(parts + [p], sep) == Join(parts, sep) + sep + p
  {
    if |parts| > 1 {
      JoinSnoc(parts[1..], p, sep);
      assert (parts + [p])[1..] == parts[1..] + [p];
    } else {
      assert (parts + [p])[1..] == [p];
    }
  }

  // ---- One line ----

  function Seg(c: Column): string { c.name + ":" + Dec(c.oid) }

  function Line(key: Target, cols: seq<Column>): string {
    if cols == [] then key.schema + "|" + key.table
    else Line(key, cols[..|cols| - 1]) + "|" + Seg(cols[|cols| - 1])
  }

  method FingerprintLine(schema: string, table: string, cols: seq<Column>) returns (line: string)
    ensures line == Line(Target(schema, table), cols)
  {
    line := schema + "|" + table;
    for i := 0 to |cols|
      invariant line == Line(Target(schema, table), cols[..i])
    {
      assert cols[..i + 1][..i] == cols[..i];
      line := line + "|" + (cols[i].name + ":" + Dec(cols[i].oid));
    }
    assert cols[..|cols|] == cols;
  }

  /** `s.rsplit_once(':')`. */
  function RsplitOnce(s: string): Option<(string, string)> {
    if s == "" then None
    else if s[|s| - 1] == ':' then Some((s[..|s| - 1], ""))
    else
      var (a, b) :- RsplitOnce(s[..|s| - 1]);
      Some((a, b + [s[|s| - 1]]))
  }

  function ParseSeg(seg: string): Option<Column> {
    var (name, oid) :- RsplitOnce(seg);
    var x :- ParseOid(oid);
    Some(Column(name, x))
  }

  /** `filter_map`: segments that do not parse are dropped. */
  function ParseSegs(segs: seq<string>): (cols: seq<Column>) {
    if segs == [] then []
    else (match ParseSeg(segs[0]) case Some(c) => [c] case None => []) + ParseSegs(segs[1..])
  }

  /** The table a line is about and its columns, as the schema delta reads it. */
  function ParseLine(line: string): Option<(Target, seq<Column>)> {
    var parts := SplitOn('|', line);
    if |parts| < 2 then None else Some((Target(parts[0], parts[1]), ParseSegs(parts[2..])))
  }

  /** No bar in any of the names. Colons are allowed. */
  predicate BarFree(key: Target, cols: seq<Column>) {
    '|' !in key.schema && '|' !in key.table && forall c | c in cols :: '|' !in c.name
  }

  lemma {:induction false} LineIsJoin(key: Target, cols: seq<Column>)
    ensures Line(key, cols) == Join([key.schema, key.table] + Map(Seg, cols), "|")
  {
    if cols == [] {
      var two := [key.schema, key.table];
      assert two + Map(Seg, cols) == two;
      assert two[1..] == [key.table];
    } else {
      var n := |cols| - 1;
      LineIsJoin(key, cols[..n]);
      var before := [key.schema, key.table] + Map(Seg, cols[..n]);
      JoinSnoc(before, Seg(cols[n]), "|");
      assert [key.schema, key.table] + Map(Seg, cols) == before + [Seg(cols[n])];
    }
  }

  lemma {:induction false} RsplitBack(name: string, digits: string)
    requires ':' !in digits
    ensures RsplitOnce(name + ":" + digits) == Some((name, digits))
  {
    var s := name + ":" + digits;
    if digits == "" {
      assert s[..|s| - 1] == name;
    } else {
      var n := |digits| - 1;
      RsplitBack(name, digits[..n]);
      assert s[..|s| - 1] == name + ":" + digits[..n];
      assert digits[..n] + [digits[n]] == digits;
    }
  }

  lemma SegBack(c: Column)
    ensures ParseSeg(Seg(c)) == Some(c)
  {
    RsplitBack(c.name, Dec(c.oid));
    DecBack(c.oid);
    assert Dec(c.oid)[0] in Dec(c.oid);
  }

  lemma {:induction false} SegsBack(cols: seq<Column>)
    ensures ParseSegs(Map(Seg, cols)) == cols
  {
    if cols == [] {
    } else {
      SegBack(cols[0]);
      SegsBack(cols[1..]);
      assert Map(Seg, cols)[1..] == Map(Seg, cols[1..]);
      assert [cols[0]] + cols[1..] == cols;
    }
  }

  lemma {:induction false} RsplitJoins(s: string)
    requires RsplitOnce(s).Some?
    ensures RsplitOnce(s).value.0 <= s
  {
    if s[|s| - 1] == ':' {
    } else {
      RsplitJoins(s[..|s| - 1]);
    }
  }

  lemma {:induction false} ParsedNamesFree(segs: seq<string>)
    requires forall p | p in segs :: '|' !in p
    ensures forall c | c in ParseSegs(segs) :: '|' !in c.name
  {
    if segs == [] {
    } else {
      ParsedNamesFree(segs[1..]);
      if ParseSeg(segs[0]).Some? {
        RsplitJoins(segs[0]);
        assert segs[0] in segs;
      }
    }
  }

  /** A line is read back as the table and columns it was made from exactly when no name
      contains a bar. */
  lemma ParseLineBack(key: Target, cols: seq<Column>)
    ensures ParseLine(Line(key, cols)) == Some((key, cols)) <==> BarFree(key, cols)
  {
    hide Dec;
    hide Line;
    hide Join;
    var line := Line(key, cols);
    if BarFree(key, cols) {
      var parts := [key.schema, key.table] + Map(Seg, cols);
      LineIsJoin(key, cols);
      forall p | p in parts
        ensures '|' !in p
      {
        if p != key.schema && p != key.table {
          var c :| c in cols && p == Seg(c);
        }
      }
      SplitJoined('|', parts);
      assert parts[2..] == Map(Seg, cols);
      SegsBack(cols);
    }
    if ParseLine(line) == Some((key, cols)) {
      var parts := SplitOn('|', line);
      PartsAreFree('|', line);
      assert parts[0] in parts && parts[1] in parts && forall p | p in parts[2..] :: p in parts;
      ParsedNamesFree(parts[2..]);
    }
  }

  // ---- A changed relation ----

  datatype SchemaChange = Additive(oldCount: nat) | Incompatible

  function LineCols(line: string): seq<Column> {
    var parts := SplitOn('|', line);
    if |parts| < 2 then [] else ParseSegs(parts[2..])
  }

  function Classify(line: string, latest: seq<Column>): SchemaChange {
    if LineCols(line) <= latest then Additive(|LineCols(line)|) else Incompatible
  }

  method ClassifySchemaChange(line: string, latest: seq<Column>) returns (r: SchemaChange)
    ensures r == Classify(line, latest)
  {
    var prior := LineCols(line);
    if |latest| < |prior| {
      return Incompatible;
    }
    for i := 0 to |prior|
      invariant prior[..i] == latest[..i]
    {
      if prior[i].name != latest[i].name || prior[i].oid != latest[i].oid {
        return Incompatible;
      }
    }
    return Additive(|prior|);
  }

  /** Additive means exactly: the old columns are a prefix of the new ones. */
  lemma AdditiveMeansPrefix(key: Target, prior: seq<Column>, latest: seq<Column>, n: nat)
    requires BarFree(key, prior)
    ensures Classify(Line(key, prior), latest) == Additive(n) <==> n == |prior| && prior <= latest
    ensures Classify(Line(key, prior), latest) == Incompatible <==> !(prior <= latest)
  {
    ParseLineBack(key, prior);
  }

  // ---- The whole text ----

  function StripCr(s: string): string {
    if s != "" && s[|s| - 1] == '\r' then s[..|s| - 1] else s
  }

  /** `text.lines()`: a carriage return goes with the line feed after it; an unterminated
      last line is kept as it is. */
  function LinesOf(text: string): seq<string> {
    var parts := SplitOn('\n', text);
    var n := |parts| - 1;
    Map(StripCr, parts[..n]) + if parts[n] == "" then [] else [parts[n]]
  }

  function LineKey(line: string): Option<Target> {
    var parts := SplitOn('|', line);
    if |parts| < 2 then None else Some(Target(parts[0], parts[1]))
  }

  type ExpectedMap = map<Target, string>

  /** The map the stream loop builds from the lines; a later line for a table wins. */
  function Expected(lines: seq<string>): ExpectedMap {
    if lines == [] then map[]
    else
      var before := Expected(lines[..|lines| - 1]);
      var line := lines[|lines| - 1];
      match LineKey(line)
      case Some(key) => before[key := line]
      case None => before
  }

  /** The map has the tables that lines are about, each with its last line. */
  lemma {:induction false} LastLineWins(lines: seq<string>, k: Target)
    ensures k in Expected(lines) <==> exists l | l in lines :: LineKey(l) == Some(k)
    ensures k in Expected(lines) ==>
              exists i | 0 <= i < |lines| ::
                && lines[i] == Expected(lines)[k] && LineKey(lines[i]) == Some(k)
                && forall j | i < j < |lines| :: LineKey(lines[j]) != Some(k)
  {
    hide LineKey;
    if lines == [] {
    } else {
      var n := |lines| - 1;
      var before := lines[..n];
      assert lines == before + [lines[n]];
      LastLineWins(before, k);
      if LineKey(lines[n]) != Some(k) && k in Expected(before) {
        var i :| 0 <= i < n && before[i] == Expected(before)[k] && LineKey(before[i]) == Some(k)
                 && forall j | i < j < n :: LineKey(before[j]) != Some(k);
        assert forall j | i < j < |lines| :: LineKey(lines[j]) != Some(k);
        assert lines[i] == Expected(lines)[k];
      }
    }
  }

  method BuildExpected(fingerprint: string) returns (expected: ExpectedMap)
    ensures expected == Expected(LinesOf(fingerprint))
  {
    expected := map[];
    var lines := LinesOf(fingerprint);
    for i := 0 to |lines|
      invariant expected == Expected(lines[..i])
    {
      assert lines[..i + 1][..i] == lines[..i];
      var parts := SplitOn('|', lines[i]);
      if |parts| >= 2 {
        expected := expected[Target(parts[0], parts[1]) := lines[i]];
      }
    }
    assert lines[..|lines|] == lines;
  }

  function Leq(a: string, b: string): bool {
    a == "" || (b != "" && (a[0] < b[0] || (a[0] == b[0] && Leq(a[1..], b[1..]))))
  }

  function Place(line: string, sorted: seq<string>): seq<string> {
    if sorted == [] || Leq(line, sorted[0]) then [line] + sorted
    else [sorted[0]] + Place(line, sorted[1..])
  }

  /** The values of the map in sorted order. */
  ghost function SortedLines(m: ExpectedMap): seq<string>
    decreases |m|
  {
    if m == map[] then []
    else
      var k :| k in m;
      Place(m[k], SortedLines(m - {k}))
  }

  ghost function TextOf(m: ExpectedMap): string { Join(SortedLines(m), "\n") }

  lemma {:induction false} PlaceHas(line: string, sorted: seq<string>)
    ensures forall l :: l in Place(line, sorted) <==> l == line || l in sorted
  {
    if sorted == [] || Leq(line, sorted[0]) {
    } else {
      PlaceHas(line, sorted[1..]);
    }
  }

  lemma {:induction false} SortedHas(m: ExpectedMap)
    ensures forall l :: l in SortedLines(m) <==> l in m.Values
    decreases |m|
  {
    if m == map[] {
    } else {
      var k :| k in m && SortedLines(m) == Place(m[k], SortedLines(m - {k}));
      PlaceHas(m[k], SortedLines(m - {k}));
      SortedHas(m - {k});
      forall l
        ensures l in m.Values <==> l == m[k] || l in (m - {k}).Values
      {
        if l in m.Values {
          var j :| j in m && m[j] == l;
          assert j == k || j in (m - {k});
        }
      }
    }
  }

  // ---- Sorted text ----

  /** `a` is the start of `b`, or smaller at the first place where they differ. */
  ghost predicate Before(a: string, b: string) {
    a <= b || exists i | 0 <= i < |a| && i < |b| :: a[..i] == b[..i] && a[i] < b[i]
  }

  lemma {:induction false} LeqIsBefore(a: string, b: string)
    requires Leq(a, b)
    ensures Before(a, b)
  {
    if a == "" || a[0] < b[0] {
      assert a != "" ==> a[..0] == b[..0];
    } else {
      LeqIsBefore(a[1..], b[1..]);
      if !(a[1..] <= b[1..]) {
        var i :| 0 <= i < |a[1..]| && i < |b[1..]| && a[1..][..i] == b[1..][..i] && a[1..][i] < b[1..][i];
        assert a[..i + 1] == [a[0]] + a[1..][..i] && b[..i + 1] == [b[0]] + b[1..][..i];
        assert a[i + 1] < b[i + 1];
      }
    }
  }

  lemma {:induction false} LeqTotal(a: string, b: string)
    ensures Leq(a, b) || Leq(b, a)
  {
    if a == "" || b == "" {
    } else {
      LeqTotal(a[1..], b[1..]);
    }
  }

  predicate InOrder(lines: seq<string>) { forall i | 0 <= i < |lines| - 1 :: Leq(lines[i], lines[i + 1]) }

  lemma {:induction false} PlaceKeepsOrder(line: string, lines: seq<string>)
    requires InOrder(lines)
    ensures InOrder(Place(line, lines)) && |Place(line, lines)| == |lines| + 1
    ensures Place(line, lines)[0] == line || (lines != [] && Place(line, lines)[0] == lines[0])
  {
    hide Leq;
    if lines == [] || Leq(line, lines[0]) {
    } else {
      LeqTotal(line, lines[0]);
      PlaceKeepsOrder(line, lines[1..]);
      var rest := Place(line, lines[1..]);
      assert Place(line, lines) == [lines[0]] + rest;
      assert rest[0] == line || rest[0] == lines[1];
    }
  }

  lemma {:induction false} SortedInOrder(m: ExpectedMap)
    ensures InOrder(SortedLines(m)) && |SortedLines(m)| == |m|
    decreases |m|
  {
    if m == map[] {
    } else {
      var k :| k in m && SortedLines(m) == Place(m[k], SortedLines(m - {k}));
      SortedInOrder(m - {k});
      PlaceKeepsOrder(m[k], SortedLines(m - {k}));
      assert m == (m - {k})[k := m[k]];
    }
  }

  /** The persisted text has the lines of the map, each once, in the order of their code
      points. */
  lemma TextIsSorted(m: ExpectedMap)
    ensures TextOf(m) == Join(SortedLines(m), "\n") && |SortedLines(m)| == |m|
    ensures forall l :: l in SortedLines(m) <==> l in m.Values
    ensures forall i | 0 <= i < |m| - 1 :: Before(SortedLines(m)[i], SortedLines(m)[i + 1])
  {
    hide Leq;
    hide Before;
    SortedInOrder(m);
    SortedHas(m);
    forall i | 0 <= i < |m| - 1
      ensures Before(SortedLines(m)[i], SortedLines(m)[i + 1])
    {
      LeqIsBefore(SortedLines(m)[i], SortedLines(m)[i + 1]);
    }
  }

  /** Every entry is a line of its own key and survives being written to a text. */
  ghost predicate Tidy(m: ExpectedMap) {
    forall k | k in m :: LineKey(m[k]) == Some(k) && '\n' !in m[k] && '\r' !in m[k]
  }

  lemma {:induction false} LinesOfJoined(lines: seq<string>)
    requires forall l | l in lines :: l != "" && '\n' !in l && '\r' !in l
    ensures LinesOf(Join(lines, "\n")) == lines
  {
    if lines == [] {
      assert SplitOn('\n', "") == [""];
    } else {
      SplitJoined('\n', lines);
      var n := |lines| - 1;
      assert lines[n] in lines && lines == lines[..n] + [lines[n]];
      forall i | 0 <= i < |lines|
        ensures StripCr(lines[i]) == lines[i]
      {
        assert lines[i] in lines;
      }
    }
  }

  lemma {:induction false} ExpectedGathers(lines: seq<string>, m: ExpectedMap)
    requires Tidy(m) && forall l | l in lines :: l in m.Values
    ensures forall k :: k in Expected(lines) ==> k in m && Expected(lines)[k] == m[k]
    ensures forall k :: k in m && m[k] in lines ==> k in Expected(lines)
  {
    if lines == [] {
    } else {
      var n := |lines| - 1;
      assert lines == lines[..n] + [lines[n]];
      ExpectedGathers(lines[..n], m);
      assert lines[n] in m.Values;
      var k :| k in m && m[k] == lines[n];
      assert LineKey(lines[n]) == Some(k);
    }
  }

  lemma KeyedLine(line: string)
    requires LineKey(line).Some?
    ensures line != ""
  {
  }

  /** Writing the map and reading the text back rebuilds the map. */
  lemma ReloadRebuilds(m: ExpectedMap)
    requires Tidy(m)
    ensures Expected(LinesOf(TextOf(m))) == m
  {
    hide LinesOf;
    hide LineKey;
    hide Join;
    var lines := SortedLines(m);
    SortedHas(m);
    forall l | l in lines
      ensures l != "" && '\n' !in l && '\r' !in l
    {
      var k :| k in m && m[k] == l;
      KeyedLine(l);
    }
    LinesOfJoined(lines);
    ExpectedGathers(lines, m);
    forall k | k in m
      ensures k in Expected(lines)
    {
      assert m[k] in m.Values;
    }
  }
}
