/** The pgoutput messages (PostgreSQL 16 documentation, section 55.9): an encoder, the
    grammar of the decoder as a function on the unread bytes, and the `Cursor` class that
    reads a buffer in place. */
module PgOutput {
  import opened Wrappers
  import Utf8

  type Byte = Utf8.Byte
  type Bytes = seq<Byte>
  type U16 = x: int | 0 <= x < 0x1_0000
  type U32 = x: int | 0 <= x < 0x1_0000_0000
  type U64 = x: int | 0 <= x < 0x1_0000_0000_0000_0000
  type I32 = x: int | -0x8000_0000 <= x < 0x8000_0000
  type I64 = x: int | -0x8000_0000_0000_0000 <= x < 0x8000_0000_0000_0000

  datatype RelColumn = RelColumn(flags: Byte, name: string, typeOid: U32, typeModifier: I32)

  datatype CellValue = Null | UnchangedToast | Text(text: string)

  type TupleData = seq<CellValue>

  datatype Msg =
    | Begin(finalLsn: U64, commitTs: I64, xid: U32)
    | Commit(commitLsn: U64, endLsn: U64, commitTs: I64)
    | Relation(relId: U32, namespace: string, name: string, replicaIdentity: Byte, columns: seq<RelColumn>)
    | Insert(relId: U32, after: TupleData)
    | Update(relId: U32, key: Option<TupleData>, before: Option<TupleData>, after: TupleData)
    | Delete(relId: U32, key: Option<TupleData>, before: Option<TupleData>)
    | Truncate(relIds: seq<U32>)
    | Message(prefix: string, content: Bytes)
    | Other

  /** A message with the fields the decoder reads and forgets: the flags byte of Commit,
      Truncate and Message, and the position in Message. */
  datatype Frame = Frame(msg: Msg, flags: Byte, lsn: U64)

  // ---- Encoding ----

  function Be(k: nat, x: nat): (bs: Bytes)
    ensures |bs| == k
  {
    if k == 0 then [] else Be(k - 1, x / 256) + [x % 256]
  }

  function Unsigned32(x: I32): U32 { if x < 0 then x + 0x1_0000_0000 else x }

  function Unsigned64(x: I64): U64 { if x < 0 then x + 0x1_0000_0000_0000_0000 else x }

  function EncodeCstr(s: string): Bytes { Utf8.Encode(s) + [0] }

  function EncodeCell(c: CellValue): Bytes {
    match c
    case Null => ['n' as int]
    case UnchangedToast => ['u' as int]
    case Text(s) => ['t' as int] + Be(4, |Utf8.Encode(s)|) + Utf8.Encode(s)
  }

  function EncodeCells(cells: TupleData): Bytes {
    if cells == [] then [] else EncodeCell(cells[0]) + EncodeCells(cells[1..])
  }

  function EncodeTuple(t: TupleData): Bytes { Be(2, |t|) + EncodeCells(t) }

  function EncodeColumn(c: RelColumn): Bytes {
    [c.flags] + (EncodeCstr(c.name) + (Be(4, c.typeOid) + Be(4, Unsigned32(c.typeModifier))))
  }

  function EncodeColumns(cs: seq<RelColumn>): Bytes {
    if cs == [] then [] else EncodeColumn(cs[0]) + EncodeColumns(cs[1..])
  }

  function EncodeIds(ids: seq<U32>): Bytes {
    if ids == [] then [] else Be(4, ids[0]) + EncodeIds(ids[1..])
  }

  /** The optional identity part of Update and the mandatory one of Delete. */
  function EncodeIdentity(key: Option<TupleData>, before: Option<TupleData>): Bytes {
    if key.Some? then ['K' as int] + EncodeTuple(key.value)
    else if before.Some? then ['O' as int] + EncodeTuple(before.value)
    else []
  }

  function Tag(m: Msg): Byte {
    match m
    case Begin(_, _, _) => 'B' as int
    case Commit(_, _, _) => 'C' as int
    case Relation(_, _, _, _, _) => 'R' as int
    case Insert(_, _) => 'I' as int
    case Update(_, _, _, _) => 'U' as int
    case Delete(_, _, _) => 'D' as int
    case Truncate(_) => 'T' as int
    case Message(_, _) => 'M' as int
    case Other => 'O' as int
  }

  function EncodeBody(f: Frame): Bytes {
    match f.msg
    case Begin(lsn, ts, xid) => Be(8, lsn) + (Be(8, Unsigned64(ts)) + Be(4, xid))
    case Commit(c, e, ts) => [f.flags] + (Be(8, c) + (Be(8, e) + Be(8, Unsigned64(ts))))
    case Relation(id, ns, name, ident, cols) =>
      Be(4, id) + (EncodeCstr(ns) + (EncodeCstr(name) + ([ident] + (Be(2, |cols|) + EncodeColumns(cols)))))
    case Insert(id, t) => Be(4, id) + (['N' as int] + EncodeTuple(t))
    case Update(id, key, before, t) =>
      Be(4, id) + (EncodeIdentity(key, before) + (['N' as int] + EncodeTuple(t)))
    case Delete(id, key, before) => Be(4, id) + EncodeIdentity(key, before)
    case Truncate(ids) => Be(4, |ids|) + ([f.flags] + EncodeIds(ids))
    case Message(prefix, content) =>
      [f.flags] + (Be(8, f.lsn) + (EncodeCstr(prefix) + (Be(4, |content|) + content)))
    case Other => []
  }

  function Encode(f: Frame): Bytes { [Tag(f.msg)] + EncodeBody(f) }

  // ---- What the format can carry ----

  predicate CstrOk(s: string) { '\0' !in s }

  predicate CellOk(c: CellValue) { c.Text? ==> |Utf8.Encode(c.text)| < 0x8000_0000 }

  predicate TupleOk(t: TupleData) { |t| < 0x1_0000 && forall c | c in t :: CellOk(c) }

  predicate MaybeOk(t: Option<TupleData>) { t.Some? ==> TupleOk(t.value) }

  /** Everything fits its field; the forgotten fields are zero where there are none. */
  predicate WellFormed(f: Frame) {
    && (f.msg.Commit? || f.msg.Truncate? || f.msg.Message? || f.flags == 0)
    && (f.msg.Message? || f.lsn == 0)
    && match f.msg
       case Begin(_, _, _) => true
       case Commit(_, _, _) => true
       case Relation(_, ns, name, _, cols) =>
         CstrOk(ns) && CstrOk(name) && |cols| < 0x1_0000 && forall c | c in cols :: CstrOk(c.name)
       case Insert(_, t) => TupleOk(t)
       case Update(_, key, before, t) => !(key.Some? && before.Some?) && MaybeOk(key) && MaybeOk(before) && TupleOk(t)
       case Delete(_, key, before) => (key.Some? <==> before.None?) && MaybeOk(key) && MaybeOk(before)
       case Truncate(ids) => |ids| < 0x1_0000_0000
       case Message(prefix, content) => CstrOk(prefix) && |content| < 0x8000_0000
       case Other => false
  }

  // ---- Big-endian numbers ----

  function Pow256(k: nat): nat { if k == 0 then 1 else 256 * Pow256(k - 1) }

  function FromBe(s: Bytes): (x: nat)
    ensures x < Pow256(|s|)
    ensures Be(|s|, x) == s
  {
    if s == [] then 0 else FromBe(s[..|s| - 1]) * 256 + s[|s| - 1]
  }

  lemma {:induction false} FromBeBe(k: nat, x: nat)
    requires x < Pow256(k)
    ensures FromBe(Be(k, x)) == x
  {
    if k == 0 {
    } else {
      FromBeBe(k - 1, x / 256);
      assert Be(k, x)[..k - 1] == Be(k - 1, x / 256);
    }
  }

  lemma Powers()
    ensures Pow256(1) == 0x100 && Pow256(2) == 0x1_0000 && Pow256(4) == 0x1_0000_0000
    ensures Pow256(8) == 0x1_0000_0000_0000_0000
  {
  }

  // ---- The decoder's grammar: each function reads from the front of the unread bytes ----

  type Parsed<T> = Result<(T, Bytes)>

  function Take(s: Bytes, n: nat): (r: Parsed<Bytes>)
    ensures r.Success? <==> n <= |s|
    ensures r.Success? ==> |r.value.0| == n
  {
    if n > |s| then Failure(Protocol) else Success((s[..n], s[n..]))
  }

  function GetU8(s: Bytes): Parsed<Byte> {
    var (b, rest) :- Take(s, 1);
    Success((b[0], rest))
  }

  function GetU16(s: Bytes): Parsed<U16> {
    var (b, rest) :- Take(s, 2);
    Powers();
    Success((FromBe(b), rest))
  }

  function GetU32(s: Bytes): Parsed<U32> {
    var (b, rest) :- Take(s, 4);
    Powers();
    Success((FromBe(b), rest))
  }

  function GetU64(s: Bytes): Parsed<U64> {
    var (b, rest) :- Take(s, 8);
    Powers();
    Success((FromBe(b), rest))
  }

  function Signed32(x: U32): I32 { if x < 0x8000_0000 then x else x - 0x1_0000_0000 }

  function Signed64(x: U64): I64 { if x < 0x8000_0000_0000_0000 then x else x - 0x1_0000_0000_0000_0000 }

  function GetI32(s: Bytes): Parsed<I32> {
    var (x, rest) :- GetU32(s);
    Success((Signed32(x), rest))
  }

  function GetI64(s: Bytes): Parsed<I64> {
    var (x, rest) :- GetU64(s);
    Success((Signed64(x), rest))
  }

  /** The position of the first zero byte, or the length if there is none. */
  function FirstNul(s: Bytes): (k: nat)
    ensures k <= |s| && 0 !in s[..k]
    ensures k < |s| ==> s[k] == 0
  {
    if s == [] || s[0] == 0 then 0
    else
      var k := FirstNul(s[1..]);
      assert s[..k + 1] == [s[0]] + s[1..][..k];
      k + 1
  }

  function GetUtf8(s: Bytes): Result<string> {
    match Utf8.Decode(s)
    case Some(t) => Success(t)
    case None => Failure(Protocol)
  }

  function GetCstr(s: Bytes): Parsed<string> {
    var k := FirstNul(s);
    if k == |s| then Failure(Protocol)
    else
      var t :- GetUtf8(s[..k]);
      Success((t, s[k + 1..]))
  }

  function GetCell(s: Bytes): Parsed<CellValue> {
    var (kind, s1) :- GetU8(s);
    if kind == 'n' as int then Success((Null, s1))
    else if kind == 'u' as int then Success((UnchangedToast, s1))
    else if kind == 't' as int then
      var (len, s2) :- GetI32(s1);
      if len < 0 then Failure(Protocol)
      else
        var (b, s3) :- Take(s2, len);
        var t :- GetUtf8(b);
        Success((Text(t), s3))
    else Failure(Protocol)
  }

  function GetCells(n: nat, s: Bytes): Parsed<TupleData> {
    if n == 0 then Success(([], s))
    else
      var (c, s1) :- GetCell(s);
      var (cs, s2) :- GetCells(n - 1, s1);
      Success(([c] + cs, s2))
  }

  function GetTuple(s: Bytes): Parsed<TupleData> {
    var (n, s1) :- GetU16(s);
    var (cells, s2) :- GetCells(n, s1);
    Success((cells, s2))
  }

  function GetColumn(s: Bytes): Parsed<RelColumn> {
    var (flags, s1) :- GetU8(s);
    var (name, s2) :- GetCstr(s1);
    var (oid, s3) :- GetU32(s2);
    var (modifier, s4) :- GetI32(s3);
    Success((RelColumn(flags, name, oid, modifier), s4))
  }

  function GetColumns(n: nat, s: Bytes): Parsed<seq<RelColumn>> {
    if n == 0 then Success(([], s))
    else
      var (c, s1) :- GetColumn(s);
      var (cs, s2) :- GetColumns(n - 1, s1);
      Success(([c] + cs, s2))
  }

  function GetIds(n: nat, s: Bytes): Parsed<seq<U32>> {
    if n == 0 then Success(([], s))
    else
      var (x, s1) :- GetU32(s);
      var (xs, s2) :- GetIds(n - 1, s1);
      Success(([x] + xs, s2))
  }

  function GetBegin(s: Bytes): Parsed<Frame> {
    var (lsn, s1) :- GetU64(s);
    var (ts, s2) :- GetI64(s1);
    var (xid, s3) :- GetU32(s2);
    Success((Frame(Begin(lsn, ts, xid), 0, 0), s3))
  }

  function GetCommit(s: Bytes): Parsed<Frame> {
    var (flags, s1) :- GetU8(s);
    var (c, s2) :- GetU64(s1);
    var (e, s3) :- GetU64(s2);
    var (ts, s4) :- GetI64(s3);
    Success((Frame(Commit(c, e, ts), flags, 0), s4))
  }

  function GetShape(s: Bytes): Parsed<(Byte, seq<RelColumn>)> {
    var (ident, s1) :- GetU8(s);
    var (n, s2) :- GetU16(s1);
    var (cols, s3) :- GetColumns(n, s2);
    Success(((ident, cols), s3))
  }

  function GetRelation(s: Bytes): Parsed<Frame> {
    var (id, s1) :- GetU32(s);
    var (ns, s2) :- GetCstr(s1);
    var (name, s3) :- GetCstr(s2);
    var ((ident, cols), s4) :- GetShape(s3);
    Success((Frame(Relation(id, ns, name, ident, cols), 0, 0), s4))
  }

  function GetInsert(s: Bytes): Parsed<Frame> {
    var (id, s1) :- GetU32(s);
    var (marker, s2) :- GetU8(s1);
    if marker != 'N' as int then Failure(Protocol)
    else
      var (t, s3) :- GetTuple(s2);
      Success((Frame(Insert(id, t), 0, 0), s3))
  }

  /** What may stand between the relation id and the marker that follows it. */
  datatype Identity = Identity(key: Option<TupleData>, before: Option<TupleData>)

  function GetIdentity(s: Bytes): Parsed<Identity> {
    var (marker, s1) :- GetU8(s);
    if marker == 'K' as int then
      var (t, s2) :- GetTuple(s1);
      Success((Identity(Some(t), None), s2))
    else if marker == 'O' as int then
      var (t, s2) :- GetTuple(s1);
      Success((Identity(None, Some(t)), s2))
    else Success((Identity(None, None), s))
  }

  function GetUpdate(s: Bytes): Parsed<Frame> {
    var (id, s1) :- GetU32(s);
    var (d, s2) :- GetIdentity(s1);
    var (marker, s3) :- GetU8(s2);
    if marker != 'N' as int then Failure(Protocol)
    else
      var (t, s4) :- GetTuple(s3);
      Success((Frame(Update(id, d.key, d.before, t), 0, 0), s4))
  }

  function GetDelete(s: Bytes): Parsed<Frame> {
    var (id, s1) :- GetU32(s);
    var (d, s2) :- GetIdentity(s1);
    if d == Identity(None, None) then Failure(Protocol)
    else Success((Frame(Delete(id, d.key, d.before), 0, 0), s2))
  }

  function GetTruncate(s: Bytes): Parsed<Frame> {
    var (n, s1) :- GetU32(s);
    var (options, s2) :- GetU8(s1);
    var (ids, s3) :- GetIds(n, s2);
    Success((Frame(Truncate(ids), options, 0), s3))
  }

  function GetMessage(s: Bytes): Parsed<Frame> {
    var (flags, s1) :- GetU8(s);
    var (lsn, s2) :- GetU64(s1);
    var (prefix, s3) :- GetCstr(s2);
    var (len, s4) :- GetI32(s3);
    if len < 0 then Failure(Protocol)
    else
      var (content, s5) :- Take(s4, len);
      Success((Frame(Message(prefix, content), flags, lsn), s5))
  }

  function GetBody(tag: Byte, s: Bytes): Parsed<Frame> {
    if tag == 'B' as int then GetBegin(s)
    else if tag == 'C' as int then GetCommit(s)
    else if tag == 'R' as int then GetRelation(s)
    else if tag == 'I' as int then GetInsert(s)
    else if tag == 'U' as int then GetUpdate(s)
    else if tag == 'D' as int then GetDelete(s)
    else if tag == 'T' as int then GetTruncate(s)
    else if tag == 'M' as int then GetMessage(s)
    else if tag == 'O' as int || tag == 'Y' as int then Success((Frame(Other, 0, 0), s))
    else Failure(Protocol)
  }

  /** One message from the front of `s`, together with what follows it. */
  function GetFrame(s: Bytes): Parsed<Frame> {
    var (tag, s1) :- GetU8(s);
    GetBody(tag, s1)
  }

  function DecodeMsg(data: Bytes): Result<Msg> {
    var (f, rest) :- GetFrame(data);
    Success(f.msg)
  }
}
