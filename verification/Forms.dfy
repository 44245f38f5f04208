/** The bytes and texts that other programs read or write, written out. That a decoder inverts
    an encoder does not say which bytes the two agree on; these lemmas do. */
module Forms {
  import opened Wrappers
  import opened PgOutput
  import opened SqlText
  import opened Database
  import opened Fingerprint
  import Lsn
  import Utf8

  // ---- Numbers and text ----

  /** Numbers are big-endian. */
  lemma BigEndian(a: Byte, b: Byte, c: Byte, d: Byte)
    ensures FromBe([a, b]) == a * 0x100 + b
    ensures FromBe([a, b, c, d]) == a * 0x100_0000 + b * 0x1_0000 + c * 0x100 + d
  {
    assert [a][..0] == [] && [a, b][..1] == [a] && [a, b, c][..2] == [a, b] && [a, b, c, d][..3] == [a, b, c];
  }

  function Zeros(n: nat): Bytes { seq(n, i => 0) }

  lemma {:induction false} SmallNumber(n: nat, x: Byte)
    ensures Be(n + 1, x) == Zeros(n) + [x]
  {
    if n == 0 {
      assert Be(0, x / 256) == [];
    } else {
      SmallNumber(n - 1, 0);
      assert x / 256 == 0 && x % 256 == x;
      assert Be(n + 1, x) == Be(n, 0) + [x];
      assert Zeros(n - 1) + [0] == Zeros(n);
    }
  }

  /** The fields of a message up to 255 in two, four and eight bytes. */
  lemma SmallNumbers(x: Byte)
    ensures Be(2, x) == [0, x] && Be(4, x) == [0, 0, 0, x] && Be(8, x) == [0, 0, 0, 0, 0, 0, 0, x]
  {
    SmallNumber(1, x);
    SmallNumber(3, x);
    SmallNumber(7, x);
  }

  lemma TextBytes()
    ensures Utf8.Encode("aé€") == [0x61, 0xC3, 0xA9, 0xE2, 0x82, 0xAC]
    ensures Utf8.Encode("\U{1F600}") == [0xF0, 0x9F, 0x98, 0x80]
  {
  }

  /** A position is two upper-case hexadecimal halves. */
  lemma PositionText()
    ensures Lsn.ToPgStr(0xA_0000_00BC) == "A/BC"
  {
    assert Lsn.Hex(0xBC / 16) == "B" && Lsn.Hex(0xBC) == "BC" && Lsn.Hex(10) == "A";
  }

  // ---- Messages ----

  lemma BeginBytes()
    ensures Encode(Frame(Begin(1, 2, 3), 0, 0)) ==
            ['B' as int, 0, 0, 0, 0, 0, 0, 0, 1, 0, 0, 0, 0, 0, 0, 0, 2, 0, 0, 0, 3]
  {
    hide Be;
    SmallNumbers(1);
    SmallNumbers(2);
    SmallNumbers(3);
  }

  lemma CommitBytes()
    ensures Encode(Frame(Commit(1, 2, 3), 0, 0)) ==
            ['C' as int, 0, 0, 0, 0, 0, 0, 0, 0, 1, 0, 0, 0, 0, 0, 0, 0, 2, 0, 0, 0, 0, 0, 0, 0, 3]
  {
    hide Be;
    SmallNumbers(1);
    SmallNumbers(2);
    SmallNumbers(3);
  }

  lemma TruncateBytes()
    ensures Encode(Frame(Truncate([5, 6]), 1, 0)) == ['T' as int, 0, 0, 0, 2, 1, 0, 0, 0, 5, 0, 0, 0, 6]
  {
    hide Be;
    SmallNumbers(2);
    SmallNumbers(5);
    SmallNumbers(6);
    assert [5, 6][1..] == [6];
    assert EncodeIds([6]) == [0, 0, 0, 6] + [];
    assert EncodeIds([5, 6]) == [0, 0, 0, 5] + [0, 0, 0, 6];
  }

  lemma CellBytes()
    ensures EncodeCells([Null, UnchangedToast, Text("a")]) ==
            ['n' as int, 'u' as int, 't' as int, 0, 0, 0, 1, 'a' as int]
  {
    hide Be;
    SmallNumbers(1);
    var cells := [Null, UnchangedToast, Text("a")];
    assert Utf8.Encode("a") == ['a' as int];
    assert cells[1..] == [UnchangedToast, Text("a")] && cells[1..][1..] == [Text("a")];
    assert EncodeCells([Text("a")]) == ['t' as int, 0, 0, 0, 1, 'a' as int] + [];
  }

  lemma OneNull()
    ensures EncodeTuple([Null]) == [0, 1, 'n' as int]
  {
    hide Be;
    SmallNumbers(1);
    assert EncodeCells([Null]) == ['n' as int] + [];
  }

  lemma InsertBytes()
    ensures Encode(Frame(Insert(7, [Null]), 0, 0)) == ['I' as int, 0, 0, 0, 7, 'N' as int, 0, 1, 'n' as int]
  {
    hide Be;
    hide EncodeTuple;
    SmallNumbers(7);
    OneNull();
  }

  lemma UpdateBytes()
    ensures Encode(Frame(Update(7, Some([Null]), None, [Null]), 0, 0)) ==
            ['U' as int, 0, 0, 0, 7, 'K' as int, 0, 1, 'n' as int, 'N' as int, 0, 1, 'n' as int]
  {
    hide Be;
    hide EncodeTuple;
    SmallNumbers(7);
    OneNull();
  }

  lemma DeleteBytes()
    ensures Encode(Frame(Delete(7, None, Some([Null])), 0, 0)) ==
            ['D' as int, 0, 0, 0, 7, 'O' as int, 0, 1, 'n' as int]
  {
    hide Be;
    hide EncodeTuple;
    SmallNumbers(7);
    OneNull();
  }

  lemma ColumnBytes()
    ensures EncodeColumn(RelColumn(1, "c", 25, 4)) == [1, 'c' as int, 0, 0, 0, 0, 25, 0, 0, 0, 4]
  {
    hide Be;
    SmallNumbers(25);
    SmallNumbers(4);
    assert Utf8.Encode("c") == ['c' as int];
  }

  lemma RelationBytes()
    ensures Encode(Frame(Relation(7, "s", "t", 'd' as int, []), 0, 0)) ==
            ['R' as int, 0, 0, 0, 7, 's' as int, 0, 't' as int, 0, 'd' as int, 0, 0]
  {
    hide Be;
    SmallNumbers(7);
    SmallNumbers(0);
    assert Utf8.Encode("s") == ['s' as int] && Utf8.Encode("t") == ['t' as int];
  }

  lemma MessageBytes()
    ensures Encode(Frame(Message("p", [9]), 1, 2)) ==
            ['M' as int, 1, 0, 0, 0, 0, 0, 0, 0, 2, 'p' as int, 0, 0, 0, 0, 1, 9]
  {
    hide Be;
    SmallNumbers(1);
    SmallNumbers(2);
    assert Utf8.Encode("p") == ['p' as int];
  }

  // ---- Statements ----

  lemma {:induction false} NothingToEscape(q: char, s: string)
    requires q !in s
    ensures Escape(q, s) == s
  {
    if s == [] {
    } else {
      NothingToEscape(q, s[1..]);
    }
  }

  /** Names are in double quotes and values in single ones, and a quote within is doubled. */
  lemma QuotedText(s: string)
    ensures '\"' !in s ==> Ident(s) == "\"" + s + "\""
    ensures '\'' !in s ==> Lit(s) == "'" + s + "'"
    ensures Ident("\"") == "\"\"\"\"" && Lit("'") == "''''"
  {
    if '\"' !in s {
      NothingToEscape('\"', s);
    }
    if '\'' !in s {
      NothingToEscape('\'', s);
    }
  }

  lemma TargetText()
    ensures PrintTarget(Target("s", "t")) == "\"s\".\"t\""
  {
    QuotedText("s");
    QuotedText("t");
  }

  lemma ConditionTexts()
    ensures PrintCond(Equals("k", "7")) == "\"k\" = '7'"
    ensures PrintCond(IsNull("k")) == "\"k\" IS NULL"
    ensures PrintAssignment(("k", Some("7"))) == "\"k\" = '7'" && PrintAssignment(("k", None)) == "\"k\" = NULL"
  {
    hide Ident;
    hide Lit;
    QuotedText("k");
    QuotedText("7");
  }

  lemma FullConditionText()
    ensures PrintCond(NotDistinct("k", None)) == "\"k\" IS NOT DISTINCT FROM NULL"
  {
    hide Ident;
    var name := Ident("k");
    assert name == "\"k\"" by { QuotedText("k"); }
    assert "\"k\"" + " IS NOT DISTINCT FROM " == "\"k\" IS NOT DISTINCT FROM ";
    assert "\"k\" IS NOT DISTINCT FROM " + "NULL" == "\"k\" IS NOT DISTINCT FROM NULL";
  }

  lemma One<T>(f: T -> string, x: T, sep: string)
    ensures Join(Map(f, [x]), sep) == f(x)
  {
  }

  lemma InsertText()
    ensures Print(InsertRow(Target("s", "t"), ["k"], [None])) == "INSERT INTO \"s\".\"t\" (\"k\") VALUES (NULL)"
  {
    hide Join;
    hide PrintTarget;
    TargetText();
    QuotedText("k");
    One(Ident, "k", ", ");
    One(PrintValue, None, ", ");
  }

  lemma UpdateText()
    ensures Print(UpdateRows(Target("s", "t"), [("k", None)], [IsNull("k")])) ==
            "UPDATE \"s\".\"t\" SET \"k\" = NULL WHERE \"k\" IS NULL"
  {
    hide Join;
    hide PrintTarget;
    hide PrintCond;
    hide PrintAssignment;
    TargetText();
    ConditionTexts();
    One(PrintAssignment, ("k", None), ", ");
    One(PrintCond, IsNull("k"), " AND ");
  }

  lemma DeleteText()
    ensures Print(DeleteRows(Target("s", "t"), [IsNull("k")])) == "DELETE FROM \"s\".\"t\" WHERE \"k\" IS NULL"
  {
    hide Join;
    hide PrintTarget;
    hide PrintCond;
    TargetText();
    ConditionTexts();
    One(PrintCond, IsNull("k"), " AND ");
  }

  /** A second condition is joined by AND. */
  lemma Conjunction(t: Target, c: Cond, d: Cond)
    ensures Print(DeleteRows(t, [c, d])) == Print(DeleteRows(t, [c])) + " AND " + PrintCond(d)
  {
    hide PrintTarget;
    hide PrintCond;
    var texts := [PrintCond(c), PrintCond(d)];
    assert Map(PrintCond, [c, d]) == texts && texts[1..] == [texts[1]];
    assert Join(texts, " AND ") == texts[0] + " AND " + texts[1];
    One(PrintCond, c, " AND ");
  }

  lemma TruncateText()
    ensures Print(TruncateTables([Target("s", "t"), Target("s", "t")])) == "TRUNCATE \"s\".\"t\", \"s\".\"t\""
  {
    hide PrintTarget;
    TargetText();
    var texts := ["\"s\".\"t\"", "\"s\".\"t\""];
    assert Map(PrintTarget, [Target("s", "t"), Target("s", "t")]) == texts;
    assert texts[1..] == [texts[1]];
    assert Join(texts, ", ") == texts[0] + ", " + texts[1];
  }

  // ---- The fingerprint ----

  lemma FingerprintText()
    ensures Line(Target("s", "t"), [Column("id", 23), Column("v", 25)]) == "s|t|id:23|v:25"
  {
    hide Dec;
    TwoDigits();
    var cols := [Column("id", 23), Column("v", 25)];
    assert cols[..1] == [Column("id", 23)] && cols[..1][..0] == [];
    assert Line(Target("s", "t"), []) == "s|t";
    assert Line(Target("s", "t"), cols[..1]) == "s|t" + "|" + "id:23";
  }

  lemma TwoDigits()
    ensures Dec(23) == "23" && Dec(25) == "25"
  {
    assert Dec(2) == "2";
  }

  /** A line ends with a line feed, and a carriage return before it goes with it. */
  lemma TextLines()
    ensures LinesOf("a\r\nb\n") == ["a", "b"]
  {
    SplitFirst('\n', "a\r", "b\n");
    SplitFirst('\n', "b", "");
    assert "a\r" + ['\n'] + "b\n" == "a\r\nb\n" && "b" + ['\n'] + "" == "b\n";
    var parts := ["a\r", "b", ""];
    assert SplitOn('\n', "a\r\nb\n") == parts;
    assert parts[..2] == ["a\r", "b"];
    assert StripCr("a\r") == "a" && StripCr("b") == "b";
  }

  /** The last line may end with the text, and then keeps its carriage return. */
  lemma UnendedLine()
    ensures LinesOf("b\r") == ["b\r"] && LinesOf("") == []
  {
    SplitFree('\n', "b\r");
    assert ["b\r"][..0] == [];
  }
}
