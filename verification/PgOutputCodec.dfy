/** The decoder of `crates/pglite/src/replica/pgoutput.rs` is the inverse of the encoder. */
module PgOutputCodec {
  import opened Wrappers
  import opened PgOutput
  import Utf8

  // ---- Decoding inverts encoding ----

  lemma Regroup(a: Bytes, b: Bytes, c: Bytes)
    ensures a + (b + c) == (a + b) + c
  {
  }

  lemma TakeBack(a: Bytes, t: Bytes)
    ensures Take(a + t, |a|) == Success((a, t))
  {
  }

  lemma U8Back(x: Byte, t: Bytes)
    ensures GetU8([x] + t) == Success((x, t))
  {
  }

  lemma U16Back(x: U16, t: Bytes)
    ensures GetU16(Be(2, x) + t) == Success((x, t))
  {
    Powers();
    TakeBack(Be(2, x), t);
    FromBeBe(2, x);
  }

  lemma U32Back(x: U32, t: Bytes)
    ensures GetU32(Be(4, x) + t) == Success((x, t))
  {
    Powers();
    TakeBack(Be(4, x), t);
    FromBeBe(4, x);
  }

  lemma U64Back(x: U64, t: Bytes)
    ensures GetU64(Be(8, x) + t) == Success((x, t))
  {
    Powers();
    TakeBack(Be(8, x), t);
    FromBeBe(8, x);
  }

  lemma I32Back(x: I32, t: Bytes)
    ensures GetI32(Be(4, Unsigned32(x)) + t) == Success((x, t))
  {
    U32Back(Unsigned32(x), t);
  }

  lemma I64Back(x: I64, t: Bytes)
    ensures GetI64(Be(8, Unsigned64(x)) + t) == Success((x, t))
  {
    U64Back(Unsigned64(x), t);
  }

  lemma {:induction false} FirstNulAt(s: Bytes, t: Bytes)
    requires 0 !in s
    ensures FirstNul(s + [0] + t) == |s|
  {
    if s == [] {
      assert (s + [0] + t)[0] == 0;
    } else {
      FirstNulAt(s[1..], t);
      assert (s + [0] + t)[1..] == s[1..] + [0] + t;
    }
  }

  lemma CstrBack(s: string, t: Bytes)
    requires CstrOk(s)
    ensures GetCstr(EncodeCstr(s) + t) == Success((s, t))
  {
    var e := Utf8.Encode(s);
    Utf8.NulFree(s);
    Utf8.DecodeEncode(s);
    FirstNulAt(e, t);
    var whole := EncodeCstr(s) + t;
    assert whole[..|e|] == e && whole[|e| + 1..] == t;
  }

  lemma TextCellBack(text: string, t: Bytes)
    requires CellOk(Text(text))
    ensures GetCell(EncodeCell(Text(text)) + t) == Success((Text(text), t))
  {
    var e := Utf8.Encode(text);
    var body := e + t;
    var len := Be(4, |e|) + body;
    assert EncodeCell(Text(text)) + t == ['t' as int] + len;
    U8Back('t' as int, len);
    I32Back(|e|, body);
    TakeBack(e, t);
    Utf8.DecodeEncode(text);
  }

  lemma CellBack(c: CellValue, t: Bytes)
    requires CellOk(c)
    ensures GetCell(EncodeCell(c) + t) == Success((c, t))
  {
    match c
    case Null => U8Back('n' as int, t);
    case UnchangedToast => U8Back('u' as int, t);
    case Text(text) => TextCellBack(text, t);
  }

  lemma CellsStep(n: nat, s: Bytes, c: CellValue, s1: Bytes, cs: TupleData, s2: Bytes)
    requires n > 0 && GetCell(s) == Success((c, s1)) && GetCells(n - 1, s1) == Success((cs, s2))
    ensures GetCells(n, s) == Success(([c] + cs, s2))
  {
  }

  lemma {:induction false} CellsBack(cells: TupleData, t: Bytes)
    requires forall c | c in cells :: CellOk(c)
    ensures GetCells(|cells|, EncodeCells(cells) + t) == Success((cells, t))
  {
    if cells == [] {
      assert EncodeCells(cells) + t == t;
    } else {
      var rest := EncodeCells(cells[1..]) + t;
      Regroup(EncodeCell(cells[0]), EncodeCells(cells[1..]), t);
      CellBack(cells[0], rest);
      CellsBack(cells[1..], t);
      CellsStep(|cells|, EncodeCells(cells) + t, cells[0], rest, cells[1..], t);
      assert [cells[0]] + cells[1..] == cells;
    }
  }

  lemma TupleBack(tuple: TupleData, t: Bytes)
    requires TupleOk(tuple)
    ensures GetTuple(EncodeTuple(tuple) + t) == Success((tuple, t))
  {
    assert EncodeTuple(tuple) + t == Be(2, |tuple|) + (EncodeCells(tuple) + t);
    U16Back(|tuple|, EncodeCells(tuple) + t);
    CellsBack(tuple, t);
  }

  lemma ColumnBack(c: RelColumn, t: Bytes)
    requires CstrOk(c.name)
    ensures GetColumn(EncodeColumn(c) + t) == Success((c, t))
  {
    var modifier := Be(4, Unsigned32(c.typeModifier)) + t;
    var oid := Be(4, c.typeOid) + modifier;
    var name := EncodeCstr(c.name) + oid;
    assert EncodeColumn(c) + t == [c.flags] + name;
    U8Back(c.flags, name);
    CstrBack(c.name, oid);
    U32Back(c.typeOid, modifier);
    I32Back(c.typeModifier, t);
  }

  lemma ColumnsStep(n: nat, s: Bytes, c: RelColumn, s1: Bytes, cs: seq<RelColumn>, s2: Bytes)
    requires n > 0 && GetColumn(s) == Success((c, s1)) && GetColumns(n - 1, s1) == Success((cs, s2))
    ensures GetColumns(n, s) == Success(([c] + cs, s2))
  {
  }

  lemma {:induction false} ColumnsBack(cs: seq<RelColumn>, t: Bytes)
    requires forall c | c in cs :: CstrOk(c.name)
    ensures GetColumns(|cs|, EncodeColumns(cs) + t) == Success((cs, t))
  {
    hide EncodeColumn;
    hide GetColumn;
    if cs == [] {
      assert EncodeColumns(cs) + t == t;
    } else {
      var rest := EncodeColumns(cs[1..]) + t;
      Regroup(EncodeColumn(cs[0]), EncodeColumns(cs[1..]), t);
      ColumnBack(cs[0], rest);
      ColumnsBack(cs[1..], t);
      ColumnsStep(|cs|, EncodeColumns(cs) + t, cs[0], rest, cs[1..], t);
      assert [cs[0]] + cs[1..] == cs;
    }
  }

  lemma {:induction false} IdsBack(ids: seq<U32>, t: Bytes)
    ensures GetIds(|ids|, EncodeIds(ids) + t) == Success((ids, t))
  {
    if ids == [] {
      assert EncodeIds(ids) + t == t;
    } else {
      var rest := EncodeIds(ids[1..]) + t;
      assert EncodeIds(ids) + t == Be(4, ids[0]) + rest;
      U32Back(ids[0], rest);
      IdsBack(ids[1..], t);
      assert [ids[0]] + ids[1..] == ids;
    }
  }

  lemma IdentityBack(key: Option<TupleData>, before: Option<TupleData>, t: Bytes)
    requires MaybeOk(key) && MaybeOk(before) && !(key.Some? && before.Some?)
    requires key.None? && before.None? ==> t != [] && t[0] !in {'K' as int, 'O' as int}
    ensures GetIdentity(EncodeIdentity(key, before) + t) == Success((Identity(key, before), t))
  {
    hide EncodeTuple;
    hide GetTuple;
    if key.Some? {
      assert EncodeIdentity(key, before) + t == ['K' as int] + (EncodeTuple(key.value) + t);
      U8Back('K' as int, EncodeTuple(key.value) + t);
      TupleBack(key.value, t);
    } else if before.Some? {
      assert EncodeIdentity(key, before) + t == ['O' as int] + (EncodeTuple(before.value) + t);
      U8Back('O' as int, EncodeTuple(before.value) + t);
      TupleBack(before.value, t);
    } else {
      assert EncodeIdentity(key, before) + t == t == [t[0]] + t[1..];
      U8Back(t[0], t[1..]);
    }
  }

  lemma RelationBack(f: Frame, t: Bytes)
    requires f.msg.Relation? && WellFormed(f)
    ensures GetRelation(EncodeBody(f) + t) == Success((f, t))
  {
    var m := f.msg;
    var c4 := Be(2, |m.columns|) + EncodeColumns(m.columns);
    var c3 := [m.replicaIdentity] + c4;
    var c2 := EncodeCstr(m.name) + c3;
    var c1 := EncodeCstr(m.namespace) + c2;
    Regroup(Be(4, m.relId), c1, t);
    Regroup(EncodeCstr(m.namespace), c2, t);
    Regroup(EncodeCstr(m.name), c3, t);
    Regroup([m.replicaIdentity], c4, t);
    Regroup(Be(2, |m.columns|), EncodeColumns(m.columns), t);
    var cols := EncodeColumns(m.columns) + t;
    var count := c4 + t;
    var ident := c3 + t;
    var name := c2 + t;
    var ns := c1 + t;
    U32Back(m.relId, ns);
    CstrBack(m.namespace, name);
    CstrBack(m.name, ident);
    U8Back(m.replicaIdentity, count);
    U16Back(|m.columns|, cols);
    ColumnsBack(m.columns, t);
  }

  lemma InsertBack(f: Frame, t: Bytes)
    requires f.msg.Insert? && WellFormed(f)
    ensures GetInsert(EncodeBody(f) + t) == Success((f, t))
  {
    var m := f.msg;
    var tuple := EncodeTuple(m.after) + t;
    var marker := ['N' as int] + tuple;
    assert EncodeBody(f) + t == Be(4, m.relId) + marker;
    U32Back(m.relId, marker);
    U8Back('N' as int, tuple);
    TupleBack(m.after, t);
  }

  lemma UpdateBack(f: Frame, t: Bytes)
    requires f.msg.Update? && WellFormed(f)
    ensures GetUpdate(EncodeBody(f) + t) == Success((f, t))
  {
    var m := f.msg;
    var tuple := EncodeTuple(m.after) + t;
    var marker := ['N' as int] + tuple;
    var identity := EncodeIdentity(m.key, m.before) + marker;
    assert EncodeBody(f) + t == Be(4, m.relId) + identity;
    U32Back(m.relId, identity);
    IdentityBack(m.key, m.before, marker);
    U8Back('N' as int, tuple);
    TupleBack(m.after, t);
  }

  lemma DeleteBack(f: Frame, t: Bytes)
    requires f.msg.Delete? && WellFormed(f)
    ensures GetDelete(EncodeBody(f) + t) == Success((f, t))
  {
    var m := f.msg;
    var identity := EncodeIdentity(m.key, m.before) + t;
    assert EncodeBody(f) + t == Be(4, m.relId) + identity;
    U32Back(m.relId, identity);
    IdentityBack(m.key, m.before, t);
  }

  lemma BeginBack(f: Frame, t: Bytes)
    requires f.msg.Begin? && WellFormed(f)
    ensures GetBegin(EncodeBody(f) + t) == Success((f, t))
  {
    var m := f.msg;
    var xid := Be(4, m.xid) + t;
    var ts := Be(8, Unsigned64(m.commitTs)) + xid;
    assert EncodeBody(f) + t == Be(8, m.finalLsn) + ts;
    U64Back(m.finalLsn, ts);
    I64Back(m.commitTs, xid);
    U32Back(m.xid, t);
  }

  lemma CommitBack(f: Frame, t: Bytes)
    requires f.msg.Commit? && WellFormed(f)
    ensures GetCommit(EncodeBody(f) + t) == Success((f, t))
  {
    var m := f.msg;
    var ts := Be(8, Unsigned64(m.commitTs)) + t;
    var end := Be(8, m.endLsn) + ts;
    var lsn := Be(8, m.commitLsn) + end;
    assert EncodeBody(f) + t == [f.flags] + lsn;
    U8Back(f.flags, lsn);
    U64Back(m.commitLsn, end);
    U64Back(m.endLsn, ts);
    I64Back(m.commitTs, t);
  }

  lemma TruncateBack(f: Frame, t: Bytes)
    requires f.msg.Truncate? && WellFormed(f)
    ensures GetTruncate(EncodeBody(f) + t) == Success((f, t))
  {
    var m := f.msg;
    var ids := EncodeIds(m.relIds) + t;
    var flags := [f.flags] + ids;
    assert EncodeBody(f) + t == Be(4, |m.relIds|) + flags;
    U32Back(|m.relIds|, flags);
    U8Back(f.flags, ids);
    IdsBack(m.relIds, t);
  }

  lemma MessageBack(f: Frame, t: Bytes)
    requires f.msg.Message? && WellFormed(f)
    ensures GetMessage(EncodeBody(f) + t) == Success((f, t))
  {
    var m := f.msg;
    var content := m.content + t;
    var len := Be(4, |m.content|) + content;
    var prefix := EncodeCstr(m.prefix) + len;
    var lsn := Be(8, f.lsn) + prefix;
    assert EncodeBody(f) + t == [f.flags] + lsn;
    U8Back(f.flags, lsn);
    U64Back(f.lsn, prefix);
    CstrBack(m.prefix, len);
    I32Back(|m.content|, content);
    TakeBack(m.content, t);
  }

  lemma BoundaryOrRelationBack(f: Frame, t: Bytes)
    requires f.msg.Begin? || f.msg.Commit? || f.msg.Relation?
    requires WellFormed(f)
    ensures GetBody(Tag(f.msg), EncodeBody(f) + t) == Success((f, t))
  {
    var tag, s := Tag(f.msg), EncodeBody(f) + t;
    if f.msg.Begin? {
      assert GetBody(tag, s) == GetBegin(s);
      BeginBack(f, t);
    } else if f.msg.Commit? {
      assert GetBody(tag, s) == GetCommit(s);
      CommitBack(f, t);
    } else {
      assert GetBody(tag, s) == GetRelation(s);
      RelationBack(f, t);
    }
  }

  lemma RowChangeBack(f: Frame, t: Bytes)
    requires f.msg.Insert? || f.msg.Update? || f.msg.Delete?
    requires WellFormed(f)
    ensures GetBody(Tag(f.msg), EncodeBody(f) + t) == Success((f, t))
  {
    hide GetInsert;
    hide GetUpdate;
    hide GetDelete;
    hide EncodeBody;
    hide WellFormed;
    var tag, s := Tag(f.msg), EncodeBody(f) + t;
    if f.msg.Insert? {
      assert GetBody(tag, s) == GetInsert(s);
      InsertBack(f, t);
    } else if f.msg.Update? {
      assert GetBody(tag, s) == GetUpdate(s);
      UpdateBack(f, t);
    } else {
      assert GetBody(tag, s) == GetDelete(s);
      DeleteBack(f, t);
    }
  }

  lemma TruncateOrMessageBack(f: Frame, t: Bytes)
    requires f.msg.Truncate? || f.msg.Message?
    requires WellFormed(f)
    ensures GetBody(Tag(f.msg), EncodeBody(f) + t) == Success((f, t))
  {
    hide GetTruncate;
    hide GetMessage;
    hide EncodeBody;
    hide WellFormed;
    var tag, s := Tag(f.msg), EncodeBody(f) + t;
    if f.msg.Truncate? {
      assert GetBody(tag, s) == GetTruncate(s);
      TruncateBack(f, t);
    } else {
      assert GetBody(tag, s) == GetMessage(s);
      MessageBack(f, t);
    }
  }

  lemma FrameBack(f: Frame, t: Bytes)
    requires WellFormed(f)
    ensures GetFrame(Encode(f) + t) == Success((f, t))
  {
    var body := EncodeBody(f) + t;
    assert Encode(f) + t == [Tag(f.msg)] + body;
    U8Back(Tag(f.msg), body);
    if f.msg.Begin? || f.msg.Commit? || f.msg.Relation? {
      BoundaryOrRelationBack(f, t);
    } else if f.msg.Insert? || f.msg.Update? || f.msg.Delete? {
      RowChangeBack(f, t);
    } else {
      TruncateOrMessageBack(f, t);
    }
  }

  // ---- What is accepted was an encoding ----

  lemma TakeSound(s: Bytes, n: nat)
    requires n <= |s|
    ensures s == s[..n] + s[n..]
  {
  }

  lemma U8Sound(s: Bytes)
    requires GetU8(s).Success?
    ensures s == [GetU8(s).value.0] + GetU8(s).value.1
  {
  }

  lemma U16Sound(s: Bytes)
    requires GetU16(s).Success?
    ensures s == Be(2, GetU16(s).value.0) + GetU16(s).value.1
  {
  }

  lemma U32Sound(s: Bytes)
    requires GetU32(s).Success?
    ensures s == Be(4, GetU32(s).value.0) + GetU32(s).value.1
  {
  }

  lemma U64Sound(s: Bytes)
    requires GetU64(s).Success?
    ensures s == Be(8, GetU64(s).value.0) + GetU64(s).value.1
  {
  }

  lemma I32Sound(s: Bytes)
    requires GetI32(s).Success?
    ensures s == Be(4, Unsigned32(GetI32(s).value.0)) + GetI32(s).value.1
  {
  }

  lemma I64Sound(s: Bytes)
    requires GetI64(s).Success?
    ensures s == Be(8, Unsigned64(GetI64(s).value.0)) + GetI64(s).value.1
  {
  }

  lemma CstrSound(s: Bytes)
    requires GetCstr(s).Success?
    ensures var (t, rest) := GetCstr(s).value; CstrOk(t) && s == EncodeCstr(t) + rest
  {
    var k := FirstNul(s);
    Utf8.NulFree(GetCstr(s).value.0);
    assert s == s[..k] + [0] + s[k + 1..];
  }

  lemma CellSound(s: Bytes)
    requires GetCell(s).Success?
    ensures var (c, rest) := GetCell(s).value; CellOk(c) && s == EncodeCell(c) + rest
  {
    U8Sound(s);
    var (kind, s1) := GetU8(s).value;
    if kind == 't' as int {
      I32Sound(s1);
      var (len, s2) := GetI32(s1).value;
      TakeSound(s2, len);
      Regroup(Be(4, len), s2[..len], s2[len..]);
      Regroup(['t' as int], Be(4, len) + s2[..len], s2[len..]);
      Regroup(['t' as int], Be(4, len), s2[..len]);
    }
  }

  lemma {:induction false} CellsSound(n: nat, s: Bytes)
    requires GetCells(n, s).Success?
    ensures var (cs, rest) := GetCells(n, s).value;
            |cs| == n && (forall c | c in cs :: CellOk(c)) && s == EncodeCells(cs) + rest
  {
    if n == 0 {
    } else {
      CellSound(s);
      var (c, s1) := GetCell(s).value;
      CellsSound(n - 1, s1);
      var (cs, s2) := GetCells(n - 1, s1).value;
      CellsStep(n, s, c, s1, cs, s2);
      Regroup(EncodeCell(c), EncodeCells(cs), s2);
      assert ([c] + cs)[1..] == cs;
    }
  }

  lemma TupleSound(s: Bytes)
    requires GetTuple(s).Success?
    ensures var (t, rest) := GetTuple(s).value; TupleOk(t) && s == EncodeTuple(t) + rest
  {
    U16Sound(s);
    var (n, s1) := GetU16(s).value;
    CellsSound(n, s1);
    var (t, s2) := GetCells(n, s1).value;
    Regroup(Be(2, n), EncodeCells(t), s2);
  }

  lemma ColumnSound(s: Bytes)
    requires GetColumn(s).Success?
    ensures var (c, rest) := GetColumn(s).value; CstrOk(c.name) && s == EncodeColumn(c) + rest
  {
    U8Sound(s);
    var (flags, s1) := GetU8(s).value;
    CstrSound(s1);
    var (name, s2) := GetCstr(s1).value;
    U32Sound(s2);
    var (oid, s3) := GetU32(s2).value;
    I32Sound(s3);
    var (modifier, s4) := GetI32(s3).value;
    var m := Be(4, Unsigned32(modifier));
    Regroup(Be(4, oid), m, s4);
    Regroup(EncodeCstr(name), Be(4, oid) + m, s4);
    Regroup([flags], EncodeCstr(name) + (Be(4, oid) + m), s4);
  }

  lemma ConsColumns(c: RelColumn, cs: seq<RelColumn>)
    ensures EncodeColumns([c] + cs) == EncodeColumn(c) + EncodeColumns(cs)
  {
  }

  lemma {:induction false} ColumnsSound(n: nat, s: Bytes)
    requires GetColumns(n, s).Success?
    ensures var (cs, rest) := GetColumns(n, s).value;
            |cs| == n && (forall c | c in cs :: CstrOk(c.name)) && s == EncodeColumns(cs) + rest
  {
    hide EncodeColumn;
    hide GetColumn;
    if n == 0 {
    } else {
      ColumnSound(s);
      var (c, s1) := GetColumn(s).value;
      ColumnsSound(n - 1, s1);
      var (cs, s2) := GetColumns(n - 1, s1).value;
      ColumnsStep(n, s, c, s1, cs, s2);
      Regroup(EncodeColumn(c), EncodeColumns(cs), s2);
      ConsColumns(c, cs);
    }
  }

  lemma {:induction false} IdsSound(n: nat, s: Bytes)
    requires GetIds(n, s).Success?
    ensures var (ids, rest) := GetIds(n, s).value; |ids| == n && s == EncodeIds(ids) + rest
  {
    if n == 0 {
    } else {
      U32Sound(s);
      var (x, s1) := GetU32(s).value;
      IdsSound(n - 1, s1);
      var (xs, s2) := GetIds(n - 1, s1).value;
      Regroup(Be(4, x), EncodeIds(xs), s2);
      assert ([x] + xs)[1..] == xs;
    }
  }

  lemma IdentitySound(s: Bytes)
    requires GetIdentity(s).Success?
    ensures var (d, rest) := GetIdentity(s).value;
            && s == EncodeIdentity(d.key, d.before) + rest
            && MaybeOk(d.key) && MaybeOk(d.before) && !(d.key.Some? && d.before.Some?)
  {
    U8Sound(s);
    var (marker, s1) := GetU8(s).value;
    if marker in {'K' as int, 'O' as int} {
      TupleSound(s1);
      var (t, s2) := GetTuple(s1).value;
      Regroup([marker], EncodeTuple(t), s2);
    }
  }

  /** The frame read is well formed and its body is what was read. */
  ghost predicate BodyRead(s: Bytes, p: (Frame, Bytes)) {
    WellFormed(p.0) && s == EncodeBody(p.0) + p.1
  }

  lemma BeginSound(s: Bytes)
    requires GetBegin(s).Success?
    ensures BodyRead(s, GetBegin(s).value)
  {
    U64Sound(s);
    var (lsn, s1) := GetU64(s).value;
    I64Sound(s1);
    var (ts, s2) := GetI64(s1).value;
    U32Sound(s2);
    var (xid, s3) := GetU32(s2).value;
    Regroup(Be(8, Unsigned64(ts)), Be(4, xid), s3);
    Regroup(Be(8, lsn), Be(8, Unsigned64(ts)) + Be(4, xid), s3);
  }

  lemma CommitSound(s: Bytes)
    requires GetCommit(s).Success?
    ensures BodyRead(s, GetCommit(s).value)
  {
    U8Sound(s);
    var (flags, s1) := GetU8(s).value;
    U64Sound(s1);
    var (c, s2) := GetU64(s1).value;
    U64Sound(s2);
    var (e, s3) := GetU64(s2).value;
    I64Sound(s3);
    var (ts, s4) := GetI64(s3).value;
    var t := Be(8, Unsigned64(ts));
    Regroup(Be(8, e), t, s4);
    Regroup(Be(8, c), Be(8, e) + t, s4);
    Regroup([flags], Be(8, c) + (Be(8, e) + t), s4);
  }

  lemma RelationSound(s: Bytes)
    requires GetRelation(s).Success?
    ensures BodyRead(s, GetRelation(s).value)
  {
    U32Sound(s);
    var (id, s1) := GetU32(s).value;
    CstrSound(s1);
    var (ns, s2) := GetCstr(s1).value;
    CstrSound(s2);
    var (name, s3) := GetCstr(s2).value;
    U8Sound(s3);
    var (ident, s4) := GetU8(s3).value;
    U16Sound(s4);
    var (n, s5) := GetU16(s4).value;
    ColumnsSound(n, s5);
    var (cols, s6) := GetColumns(n, s5).value;
    var count := Be(2, n) + EncodeColumns(cols);
    Regroup(Be(2, n), EncodeColumns(cols), s6);
    Regroup([ident], count, s6);
    Regroup(EncodeCstr(name), [ident] + count, s6);
    Regroup(EncodeCstr(ns), EncodeCstr(name) + ([ident] + count), s6);
    Regroup(Be(4, id), EncodeCstr(ns) + (EncodeCstr(name) + ([ident] + count)), s6);
  }

  lemma InsertSound(s: Bytes)
    requires GetInsert(s).Success?
    ensures BodyRead(s, GetInsert(s).value)
  {
    U32Sound(s);
    var (id, s1) := GetU32(s).value;
    U8Sound(s1);
    var (marker, s2) := GetU8(s1).value;
    TupleSound(s2);
    var (t, s3) := GetTuple(s2).value;
    Regroup([marker], EncodeTuple(t), s3);
    Regroup(Be(4, id), [marker] + EncodeTuple(t), s3);
  }

  lemma UpdateSound(s: Bytes)
    requires GetUpdate(s).Success?
    ensures BodyRead(s, GetUpdate(s).value)
  {
    U32Sound(s);
    var (id, s1) := GetU32(s).value;
    IdentitySound(s1);
    var (d, s2) := GetIdentity(s1).value;
    U8Sound(s2);
    var (marker, s3) := GetU8(s2).value;
    TupleSound(s3);
    var (t, s4) := GetTuple(s3).value;
    var identity := EncodeIdentity(d.key, d.before);
    Regroup([marker], EncodeTuple(t), s4);
    Regroup(identity, [marker] + EncodeTuple(t), s4);
    Regroup(Be(4, id), identity + ([marker] + EncodeTuple(t)), s4);
  }

  lemma DeleteSound(s: Bytes)
    requires GetDelete(s).Success?
    ensures BodyRead(s, GetDelete(s).value)
  {
    U32Sound(s);
    var (id, s1) := GetU32(s).value;
    IdentitySound(s1);
    var (d, s2) := GetIdentity(s1).value;
    Regroup(Be(4, id), EncodeIdentity(d.key, d.before), s2);
  }

  lemma TruncateSound(s: Bytes)
    requires GetTruncate(s).Success?
    ensures BodyRead(s, GetTruncate(s).value)
  {
    U32Sound(s);
    var (n, s1) := GetU32(s).value;
    U8Sound(s1);
    var (options, s2) := GetU8(s1).value;
    IdsSound(n, s2);
    var (ids, s3) := GetIds(n, s2).value;
    Regroup([options], EncodeIds(ids), s3);
    Regroup(Be(4, n), [options] + EncodeIds(ids), s3);
  }

  lemma MessageSound(s: Bytes)
    requires GetMessage(s).Success?
    ensures BodyRead(s, GetMessage(s).value)
  {
    U8Sound(s);
    var (flags, s1) := GetU8(s).value;
    U64Sound(s1);
    var (lsn, s2) := GetU64(s1).value;
    CstrSound(s2);
    var (prefix, s3) := GetCstr(s2).value;
    I32Sound(s3);
    var (len, s4) := GetI32(s3).value;
    TakeSound(s4, len);
    var content, s5 := s4[..len], s4[len..];
    Regroup(Be(4, len), content, s5);
    Regroup(EncodeCstr(prefix), Be(4, len) + content, s5);
    Regroup(Be(8, lsn), EncodeCstr(prefix) + (Be(4, len) + content), s5);
    Regroup([flags], Be(8, lsn) + (EncodeCstr(prefix) + (Be(4, len) + content)), s5);
    assert GetMessage(s) == Success((Frame(Message(prefix, content), flags, lsn), s5));
  }

  lemma BoundaryOrRelationSound(tag: Byte, s: Bytes)
    requires tag in {'B' as int, 'C' as int, 'R' as int}
    requires GetBody(tag, s).Success?
    ensures tag == Tag(GetBody(tag, s).value.0.msg)
    ensures BodyRead(s, GetBody(tag, s).value)
  {
    if tag == 'B' as int {
      assert GetBody(tag, s) == GetBegin(s);
      BeginSound(s);
    } else if tag == 'C' as int {
      assert GetBody(tag, s) == GetCommit(s);
      CommitSound(s);
    } else {
      assert GetBody(tag, s) == GetRelation(s);
      RelationSound(s);
    }
  }

  lemma RowKinds(s: Bytes)
    ensures GetInsert(s).Success? ==> GetInsert(s).value.0.msg.Insert?
    ensures GetUpdate(s).Success? ==> GetUpdate(s).value.0.msg.Update?
    ensures GetDelete(s).Success? ==> GetDelete(s).value.0.msg.Delete?
  {
    hide GetTuple;
    hide GetIdentity;
  }

  lemma OtherKinds(s: Bytes)
    ensures GetTruncate(s).Success? ==> GetTruncate(s).value.0.msg.Truncate?
    ensures GetMessage(s).Success? ==> GetMessage(s).value.0.msg.Message?
  {
    hide GetIds;
    hide GetCstr;
  }

  lemma RowChangeSound(tag: Byte, s: Bytes)
    requires tag in {'I' as int, 'U' as int, 'D' as int}
    requires GetBody(tag, s).Success?
    ensures tag == Tag(GetBody(tag, s).value.0.msg)
    ensures BodyRead(s, GetBody(tag, s).value)
  {
    hide BodyRead;
    hide GetInsert;
    hide GetUpdate;
    hide GetDelete;
    RowKinds(s);
    if tag == 'I' as int {
      assert GetBody(tag, s) == GetInsert(s);
      InsertSound(s);
    } else if tag == 'U' as int {
      assert GetBody(tag, s) == GetUpdate(s);
      UpdateSound(s);
    } else {
      assert GetBody(tag, s) == GetDelete(s);
      DeleteSound(s);
    }
  }

  lemma TruncateOrMessageSound(tag: Byte, s: Bytes)
    requires tag in {'T' as int, 'M' as int}
    requires GetBody(tag, s).Success?
    ensures tag == Tag(GetBody(tag, s).value.0.msg)
    ensures BodyRead(s, GetBody(tag, s).value)
  {
    hide BodyRead;
    hide GetTruncate;
    hide GetMessage;
    OtherKinds(s);
    if tag == 'T' as int {
      assert GetBody(tag, s) == GetTruncate(s);
      TruncateSound(s);
    } else {
      assert GetBody(tag, s) == GetMessage(s);
      MessageSound(s);
    }
  }

  lemma FrameSound(s: Bytes)
    requires GetFrame(s).Success? && !GetFrame(s).value.0.msg.Other?
    ensures var (f, rest) := GetFrame(s).value; WellFormed(f) && s == Encode(f) + rest
  {
    U8Sound(s);
    var (tag, s1) := GetU8(s).value;
    if tag in {'B' as int, 'C' as int, 'R' as int} {
      BoundaryOrRelationSound(tag, s1);
    } else if tag in {'I' as int, 'U' as int, 'D' as int} {
      RowChangeSound(tag, s1);
    } else {
      TruncateOrMessageSound(tag, s1);
    }
    var (f, rest) := GetBody(tag, s1).value;
    Regroup([tag], EncodeBody(f), rest);
  }

  /** Every well-formed message comes back from its encoding, whatever bytes follow. */
  lemma DecodeInvertsEncode(f: Frame, trailing: Bytes)
    requires WellFormed(f)
    ensures DecodeMsg(Encode(f) + trailing) == Success(f.msg)
  {
    FrameBack(f, trailing);
  }

  /** No encoding is a strict prefix of another. */
  lemma PrefixFree(f: Frame, g: Frame, extra: Bytes)
    requires WellFormed(f) && WellFormed(g) && Encode(f) == Encode(g) + extra
    ensures f == g && extra == []
  {
    FrameBack(g, extra);
    FrameBack(f, []);
    assert Encode(f) + [] == Encode(f);
  }

  lemma FrameKind(data: Bytes)
    requires GetFrame(data).Success? && GetFrame(data).value.0.msg.Other?
    ensures data[0] in {'O' as int, 'Y' as int}
  {
  }

  /** A message cut short anywhere is an error, not another message. */
  lemma StrictPrefixFails(f: Frame, k: nat)
    requires WellFormed(f) && k < |Encode(f)|
    ensures DecodeMsg(Encode(f)[..k]).Failure?
  {
    var e := Encode(f);
    var p := e[..k];
    if p != [] && GetFrame(p).Success? {
      assert p[0] == e[0] == Tag(f.msg);
      if GetFrame(p).value.0.msg.Other? {
        FrameKind(p);
        assert false;
      }
      FrameSound(p);
      var (g, rest) := GetFrame(p).value;
      TakeSound(e, k);
      Regroup(Encode(g), rest, e[k..]);
      PrefixFree(f, g, rest + e[k..]);
    }
  }

  /** What is accepted: exactly the bytes that start with a well-formed encoding, or with
      one of the two tags whose body is skipped. */
  lemma DecodeAcceptsExactly(data: Bytes, m: Msg)
    requires !m.Other?
    ensures DecodeMsg(data) == Success(m) <==>
            exists f, rest :: WellFormed(f) && f.msg == m && data == Encode(f) + rest
  {
    if f, rest :| WellFormed(f) && f.msg == m && data == Encode(f) + rest {
      FrameBack(f, rest);
    }
    if DecodeMsg(data) == Success(m) {
      FrameSound(data);
    }
  }

  lemma DecodeSkipsExactly(data: Bytes)
    ensures DecodeMsg(data) == Success(Other) <==> data != [] && data[0] in {'O' as int, 'Y' as int}
  {
    if data != [] {
      assert data == [data[0]] + data[1..];
      U8Back(data[0], data[1..]);
    }
    if DecodeMsg(data) == Success(Other) && data[0] !in {'O' as int, 'Y' as int} {
      FrameKind(data);
    }
  }
}
