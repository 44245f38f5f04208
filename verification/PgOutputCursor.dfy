/** The decoder as the program runs it: a cursor moving over the buffer, and loops that
    push cells, columns and relation ids. Each method reads what its function in
    `PgOutput` reads. */
module PgOutputCursor {
  import opened Wrappers
  import opened PgOutput

  /** The call returned what the grammar says, and on success left `rest` unread. */
  ghost predicate Reads<T>(spec: Parsed<T>, r: Result<T>, rest: Bytes) {
    match spec
    case Success(p) => r == Success(p.0) && rest == p.1
    case Failure(e) => r == Failure(e)
  }

  /** A parse that continues after `front` has been read already. */
  ghost function After<T>(front: seq<T>, p: Parsed<seq<T>>): Parsed<seq<T>> {
    match p
    case Success((back, rest)) => Success((front + back, rest))
    case Failure(e) => Failure(e)
  }

  lemma AfterNone<T>(p: Parsed<seq<T>>)
    ensures After([], p) == p
  {
    if p.Success? {
      assert [] + p.value.0 == p.value.0;
    }
  }

  lemma AfterOne<T>(front: seq<T>, x: T, p: Parsed<seq<T>>)
    ensures After(front + [x], p) == After(front, After([x], p))
  {
    if p.Success? {
      assert front + [x] + p.value.0 == front + ([x] + p.value.0);
    }
  }

  lemma ColumnsNext(n: nat, s: Bytes)
    requires n > 0
    ensures GetColumns(n, s) ==
            match GetColumn(s)
            case Success((c, rest)) => After([c], GetColumns(n - 1, rest))
            case Failure(e) => Failure(e)
  {
  }

  class Cursor {
    const buf: Bytes
    var pos: nat

    ghost predicate Valid()
      reads this
    {
      pos <= |buf|
    }

    ghost function Unread(): Bytes
      requires Valid()
      reads this
    {
      buf[pos..]
    }

    constructor (buf: Bytes)
      ensures Valid() && this.buf == buf && Unread() == buf
    {
      this.buf := buf;
      pos := 0;
    }

    method Take(n: nat) returns (r: Result<Bytes>)
      requires Valid()
      modifies this`pos
      ensures Valid() && Reads(PgOutput.Take(old(Unread()), n), r, Unread())
    {
      if pos + n > |buf| {
        return Failure(Protocol);
      }
      var out := buf[pos..pos + n];
      assert out == Unread()[..n] && buf[pos + n..] == Unread()[n..];
      pos := pos + n;
      return Success(out);
    }

    method U8() returns (r: Result<Byte>)
      requires Valid()
      modifies this`pos
      ensures Valid() && Reads(GetU8(old(Unread())), r, Unread())
    {
      var b :- Take(1);
      return Success(b[0]);
    }

    method U16() returns (r: Result<PgOutput.U16>)
      requires Valid()
      modifies this`pos
      ensures Valid() && Reads(GetU16(old(Unread())), r, Unread())
    {
      var b :- Take(2);
      Powers();
      return Success(FromBe(b));
    }

    method U32() returns (r: Result<PgOutput.U32>)
      requires Valid()
      modifies this`pos
      ensures Valid() && Reads(GetU32(old(Unread())), r, Unread())
    {
      var b :- Take(4);
      Powers();
      return Success(FromBe(b));
    }

    method I32() returns (r: Result<PgOutput.I32>)
      requires Valid()
      modifies this`pos
      ensures Valid() && Reads(GetI32(old(Unread())), r, Unread())
    {
      var x :- U32();
      return Success(Signed32(x));
    }

    method U64() returns (r: Result<PgOutput.U64>)
      requires Valid()
      modifies this`pos
      ensures Valid() && Reads(GetU64(old(Unread())), r, Unread())
    {
      var b :- Take(8);
      Powers();
      return Success(FromBe(b));
    }

    method I64() returns (r: Result<PgOutput.I64>)
      requires Valid()
      modifies this`pos
      ensures Valid() && Reads(GetI64(old(Unread())), r, Unread())
    {
      var x :- U64();
      return Success(Signed64(x));
    }

    method Cstr() returns (r: Result<string>)
      requires Valid()
      modifies this`pos
      ensures Valid() && Reads(GetCstr(old(Unread())), r, Unread())
    {
      var rest := buf[pos..];
      var nul := FirstNul(rest);
      if nul == |rest| {
        return Failure(Protocol);
      }
      var s :- GetUtf8(rest[..nul]);
      pos := pos + nul + 1;
      return Success(s);
    }

    method Cell() returns (r: Result<CellValue>)
      requires Valid()
      modifies this`pos
      ensures Valid() && Reads(GetCell(old(Unread())), r, Unread())
    {
      var kind :- U8();
      if kind == 'n' as int {
        return Success(Null);
      } else if kind == 'u' as int {
        return Success(UnchangedToast);
      } else if kind == 't' as int {
        var len :- I32();
        if len < 0 {
          return Failure(Protocol);
        }
        var bytes :- Take(len);
        var s :- GetUtf8(bytes);
        return Success(Text(s));
      } else {
        return Failure(Protocol);
      }
    }

    method Cells(ncols: nat) returns (r: Result<TupleData>)
      requires Valid()
      modifies this`pos
      ensures Valid() && Reads(GetCells(ncols, old(Unread())), r, Unread())
    {
      ghost var start := Unread();
      var cells: TupleData := [];
      AfterNone(GetCells(ncols, start));
      for i := 0 to ncols
        invariant Valid()
        invariant GetCells(ncols, start) == After(cells, GetCells(ncols - i, Unread()))
      {
        var cell :- Cell();
        AfterOne(cells, cell, GetCells(ncols - i - 1, Unread()));
        cells := cells + [cell];
      }
      assert cells + [] == cells;
      return Success(cells);
    }

    method Tuple() returns (r: Result<TupleData>)
      requires Valid()
      modifies this`pos
      ensures Valid() && Reads(GetTuple(old(Unread())), r, Unread())
    {
      var ncols :- U16();
      r := Cells(ncols);
    }

    method Column() returns (r: Result<RelColumn>)
      requires Valid()
      modifies this`pos
      ensures Valid() && Reads(GetColumn(old(Unread())), r, Unread())
    {
      var flags :- U8();
      var name :- Cstr();
      var oid :- U32();
      var modifier :- I32();
      return Success(RelColumn(flags, name, oid, modifier));
    }

    method Columns(ncols: nat) returns (r: Result<seq<RelColumn>>)
      requires Valid()
      modifies this`pos
      ensures Valid() && Reads(GetColumns(ncols, old(Unread())), r, Unread())
    {
      hide GetColumn;
      ghost var start := Unread();
      var columns: seq<RelColumn> := [];
      AfterNone(GetColumns(ncols, start));
      for i := 0 to ncols
        invariant Valid()
        invariant GetColumns(ncols, start) == After(columns, GetColumns(ncols - i, Unread()))
      {
        ColumnsNext(ncols - i, Unread());
        var column :- Column();
        AfterOne(columns, column, GetColumns(ncols - i - 1, Unread()));
        columns := columns + [column];
      }
      assert columns + [] == columns;
      return Success(columns);
    }

    method RelIds(nrels: nat) returns (r: Result<seq<PgOutput.U32>>)
      requires Valid()
      modifies this`pos
      ensures Valid() && Reads(GetIds(nrels, old(Unread())), r, Unread())
    {
      ghost var start := Unread();
      var ids: seq<PgOutput.U32> := [];
      AfterNone(GetIds(nrels, start));
      for i := 0 to nrels
        invariant Valid()
        invariant GetIds(nrels, start) == After(ids, GetIds(nrels - i, Unread()))
      {
        var id :- U32();
        AfterOne(ids, id, GetIds(nrels - i - 1, Unread()));
        ids := ids + [id];
      }
      assert ids + [] == ids;
      return Success(ids);
    }
  }

  function MsgOf(p: Parsed<Frame>): Result<Msg> {
    match p
    case Success((f, _)) => Success(f.msg)
    case Failure(e) => Failure(e)
  }

  method DecodeBegin(c: Cursor) returns (r: Result<Msg>)
    requires c.Valid()
    modifies c`pos
    ensures c.Valid() && r == MsgOf(GetBegin(old(c.Unread())))
  {
    var finalLsn :- c.U64();
    var commitTs :- c.I64();
    var xid :- c.U32();
    return Success(Begin(finalLsn, commitTs, xid));
  }

  method DecodeCommit(c: Cursor) returns (r: Result<Msg>)
    requires c.Valid()
    modifies c`pos
    ensures c.Valid() && r == MsgOf(GetCommit(old(c.Unread())))
  {
    var _ :- c.U8();
    var commitLsn :- c.U64();
    var endLsn :- c.U64();
    var commitTs :- c.I64();
    return Success(Commit(commitLsn, endLsn, commitTs));
  }

  method DecodeInsert(c: Cursor) returns (r: Result<Msg>)
    requires c.Valid()
    modifies c`pos
    ensures c.Valid() && r == MsgOf(GetInsert(old(c.Unread())))
  {
    var relId :- c.U32();
    var marker :- c.U8();
    if marker != 'N' as int {
      return Failure(Protocol);
    }
    var t :- c.Tuple();
    return Success(Insert(relId, t));
  }

  method DecodeRelation(c: Cursor) returns (r: Result<Msg>)
    requires c.Valid()
    modifies c`pos
    ensures c.Valid() && r == MsgOf(GetRelation(old(c.Unread())))
  {
    var relId :- c.U32();
    var namespace :- c.Cstr();
    var name :- c.Cstr();
    var replicaIdentity :- c.U8();
    var ncols :- c.U16();
    var columns :- c.Columns(ncols);
    return Success(Relation(relId, namespace, name, replicaIdentity, columns));
  }

  method DecodeUpdate(c: Cursor) returns (r: Result<Msg>)
    requires c.Valid()
    modifies c`pos
    ensures c.Valid() && r == MsgOf(GetUpdate(old(c.Unread())))
  {
    var relId :- c.U32();
    var key, before: Option<TupleData> := None, None;
    var marker :- c.U8();
    if marker == 'K' as int {
      var t :- c.Tuple();
      key := Some(t);
      marker :- c.U8();
    } else if marker == 'O' as int {
      var t :- c.Tuple();
      before := Some(t);
      marker :- c.U8();
    }
    if marker != 'N' as int {
      return Failure(Protocol);
    }
    var t :- c.Tuple();
    return Success(Update(relId, key, before, t));
  }

  method DecodeDelete(c: Cursor) returns (r: Result<Msg>)
    requires c.Valid()
    modifies c`pos
    ensures c.Valid() && r == MsgOf(GetDelete(old(c.Unread())))
  {
    var relId :- c.U32();
    var marker :- c.U8();
    if marker == 'K' as int {
      var t :- c.Tuple();
      return Success(Delete(relId, Some(t), None));
    } else if marker == 'O' as int {
      var t :- c.Tuple();
      return Success(Delete(relId, None, Some(t)));
    } else {
      return Failure(Protocol);
    }
  }

  method DecodeMessage(c: Cursor) returns (r: Result<Msg>)
    requires c.Valid()
    modifies c`pos
    ensures c.Valid() && r == MsgOf(GetMessage(old(c.Unread())))
  {
    var _ :- c.U8();
    var _ :- c.U64();
    var prefix :- c.Cstr();
    var len :- c.I32();
    if len < 0 {
      return Failure(Protocol);
    }
    var content :- c.Take(len);
    return Success(Message(prefix, content));
  }

  method DecodeTruncate(c: Cursor) returns (r: Result<Msg>)
    requires c.Valid()
    modifies c`pos
    ensures c.Valid() && r == MsgOf(GetTruncate(old(c.Unread())))
  {
    var nrels :- c.U32();
    var _ :- c.U8();
    var ids :- c.RelIds(nrels);
    return Success(Truncate(ids));
  }

  lemma FrameByTag(data: Bytes, tag: Byte, body: Bytes)
    requires GetU8(data) == Success((tag, body))
    ensures DecodeMsg(data) == MsgOf(GetBody(tag, body))
  {
  }

  /** Total on every byte string, and equal to the grammar on each. */
  method Decode(data: Bytes) returns (r: Result<Msg>)
    ensures r == DecodeMsg(data)
  {
    var c := new Cursor(data);
    var tag :- c.U8();
    ghost var body := c.Unread();
    FrameByTag(data, tag, body);
    if tag == 'B' as int {
      r := DecodeBegin(c);
    } else if tag == 'C' as int {
      r := DecodeCommit(c);
    } else if tag == 'R' as int {
      r := DecodeRelation(c);
    } else if tag == 'I' as int {
      r := DecodeInsert(c);
    } else if tag == 'U' as int {
      r := DecodeUpdate(c);
    } else if tag == 'D' as int {
      r := DecodeDelete(c);
    } else if tag == 'T' as int {
      r := DecodeTruncate(c);
    } else if tag == 'M' as int {
      r := DecodeMessage(c);
    } else if tag == 'O' as int || tag == 'Y' as int {
      return Success(Other);
    } else {
      return Failure(Protocol);
    }
  }
}
