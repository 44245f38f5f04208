/** The socket gateway (`crates/pglite/src/socket/mod.rs`): which bytes of a response reach
    the client, and how client frames are gathered into round trips. */
module Gateway {
  import opened PgOutput

  const TAG_NOTIFICATION: Byte := 65
  const TAG_READY: Byte := 90
  const TAG_TERMINATE: Byte := 88

  /** `Q`, `F`, `S`, `c`, `f`: after these the server is asked. */
  predicate Asks(tag: Byte) { tag in [81, 70, 83, 99, 102] }

  // ---- Frames ----

  function Concat(parts: seq<Bytes>): Bytes { if parts == [] then [] else parts[0] + Concat(parts[1..]) }

  /** The length a frame claims: the tag, and at least the four length bytes. */
  function Claimed(s: Bytes): (n: nat)
    requires |s| >= 5
    ensures n >= 5
  {
    1 + if FromBe(s[1..5]) > 4 then FromBe(s[1..5]) else 4
  }

  function FrameEnd(s: Bytes): (n: nat)
    requires |s| >= 5
    ensures 5 <= n <= |s|
  {
    if Claimed(s) < |s| then Claimed(s) else |s|
  }

  /** The frames of a response. The last may be cut short; fewer than five bytes are none. */
  function Frames(s: Bytes): (fs: seq<Bytes>)
    ensures 5 * |fs| <= |s| && forall f | f in fs :: |f| >= 5
  {
    if |s| < 5 then [] else [s[..FrameEnd(s)]] + Frames(s[FrameEnd(s)..])
  }

  function TagOf(f: Bytes): Byte { if f == [] then 0 else f[0] }

  predicate Dropped(tag: Byte, lastKept: Byte) {
    tag == TAG_NOTIFICATION || (tag == TAG_READY && lastKept == TAG_READY)
  }

  function Keep(fs: seq<Bytes>, lastKept: Byte): (ks: seq<Bytes>)
    ensures forall k | k in ks :: k in fs
  {
    if fs == [] then []
    else if Dropped(TagOf(fs[0]), lastKept) then Keep(fs[1..], lastKept)
    else [fs[0]] + Keep(fs[1..], TagOf(fs[0]))
  }

  function Filtered(response: Bytes): Bytes { Concat(Keep(Frames(response), 0)) }

  lemma FramesStep(s: Bytes)
    requires |s| >= 5
    ensures Frames(s) == [s[..FrameEnd(s)]] + Frames(s[FrameEnd(s)..])
  {
  }

  /** One frame of the response: dropped, or passed on. */
  lemma FilterStep(s: Bytes, lastKept: Byte)
    requires |s| >= 5
    ensures var f, rest := s[..FrameEnd(s)], s[FrameEnd(s)..];
            Concat(Keep(Frames(s), lastKept)) ==
            if Dropped(s[0], lastKept) then Concat(Keep(Frames(rest), lastKept))
            else f + Concat(Keep(Frames(rest), s[0]))
  {
    hide Frames;
    FramesStep(s);
    var f, rest := s[..FrameEnd(s)], Frames(s[FrameEnd(s)..]);
    assert Frames(s)[1..] == rest && Frames(s)[0] == f && TagOf(f) == s[0];
    if !Dropped(s[0], lastKept) {
      assert ([f] + Keep(rest, s[0]))[1..] == Keep(rest, s[0]);
    }
  }

  lemma Regroup(a: Bytes, b: Bytes, c: Bytes)
    ensures a + (b + c) == a + b + c
  {
  }

  lemma NothingLeft(s: Bytes, lastKept: Byte)
    requires |s| < 5
    ensures Concat(Keep(Frames(s), lastKept)) == []
  {
  }

  // ---- What is kept ----

  lemma CoverStep(s: Bytes, n: nat, k: nat)
    requires n <= |s| && k <= |s| - n
    ensures s[..n] + s[n..][..k] == s[..n + k]
  {
  }

  lemma {:induction false} FramesCover(s: Bytes)
    ensures |Concat(Frames(s))| <= |s| < |Concat(Frames(s))| + 5
    ensures Concat(Frames(s)) == s[..|Concat(Frames(s))|]
  {
    if |s| < 5 {
    } else {
      var n := FrameEnd(s);
      FramesCover(s[n..]);
      FramesStep(s);
      CoverStep(s, n, |Concat(Frames(s[n..]))|);
    }
  }

  function Others(fs: seq<Bytes>): seq<Bytes>
  {
    if fs == [] then []
    else (if TagOf(fs[0]) == TAG_NOTIFICATION || TagOf(fs[0]) == TAG_READY then [] else [fs[0]]) + Others(fs[1..])
  }

  ghost predicate NoRepeatedReady(fs: seq<Bytes>, lastKept: Byte)
  {
    fs == [] || (!Dropped(TagOf(fs[0]), lastKept) && NoRepeatedReady(fs[1..], TagOf(fs[0])))
  }

  /** No notification and no second ready in a row is left; every other frame is, in order. */
  lemma {:induction false} KeepIsExact(fs: seq<Bytes>, lastKept: Byte)
    ensures NoRepeatedReady(Keep(fs, lastKept), lastKept) && Others(Keep(fs, lastKept)) == Others(fs)
    ensures lastKept != TAG_READY && fs != [] && TagOf(fs[0]) == TAG_READY ==> fs[0] == Keep(fs, lastKept)[0]
  {
    if fs == [] {
    } else {
      KeepIsExact(fs[1..], if Dropped(TagOf(fs[0]), lastKept) then lastKept else TagOf(fs[0]));
      if !Dropped(TagOf(fs[0]), lastKept) {
        assert Keep(fs, lastKept)[1..] == Keep(fs[1..], TagOf(fs[0]));
      }
    }
  }

  lemma {:induction false} KeptIsKept(fs: seq<Bytes>, lastKept: Byte)
    requires NoRepeatedReady(fs, lastKept)
    ensures Keep(fs, lastKept) == fs
  {
    if fs == [] {
    } else {
      KeptIsKept(fs[1..], TagOf(fs[0]));
    }
  }

  // ---- Idempotence ----

  predicate Whole(f: Bytes) { |f| >= 5 && |f| == Claimed(f) }

  predicate Cut(f: Bytes) { 5 <= |f| <= Claimed(f) }

  /** All frames whole, but for the last. */
  predicate Framed(fs: seq<Bytes>) {
    fs == [] || (if |fs| == 1 then Cut(fs[0]) else Whole(fs[0]) && Framed(fs[1..]))
  }

  lemma FirstFrame(s: Bytes)
    requires |s| >= 5
    ensures var f := s[..FrameEnd(s)]; Cut(f) && (FrameEnd(s) < |s| ==> Whole(f))
  {
    assert s[..FrameEnd(s)][1..5] == s[1..5];
  }

  lemma {:induction false} FramesAreFramed(s: Bytes)
    ensures Framed(Frames(s))
  {
    if |s| < 5 {
    } else {
      FirstFrame(s);
      FramesAreFramed(s[FrameEnd(s)..]);
      assert Frames(s)[1..] == Frames(s[FrameEnd(s)..]);
    }
  }

  lemma WholeIsFirst(f: Bytes, rest: Bytes)
    requires Cut(f) && (rest == [] || Whole(f))
    ensures FrameEnd(f + rest) == |f| && (f + rest)[..|f|] == f && (f + rest)[|f|..] == rest
  {
    assert (f + rest)[1..5] == f[1..5];
  }

  lemma NothingToCut()
    ensures Concat([]) == [] && Frames([]) == []
  {
  }

  /** The first frame ends where it should, and the others are framed too. */
  lemma FirstOf(fs: seq<Bytes>)
    requires Framed(fs) && fs != []
    ensures Framed(fs[1..])
    ensures var s := Concat(fs);
            && |s| >= 5 && FrameEnd(s) == |fs[0]| <= |s|
            && s[..FrameEnd(s)] == fs[0] && s[FrameEnd(s)..] == Concat(fs[1..])
  {
    hide FrameEnd;
    hide Claimed;
    if |fs| == 1 {
      assert fs[1..] == [];
    }
    WholeIsFirst(fs[0], Concat(fs[1..]));
  }

  lemma {:induction false} FramesOfConcat(fs: seq<Bytes>)
    requires Framed(fs)
    ensures Frames(Concat(fs)) == fs
  {
    hide FrameEnd;
    hide Claimed;
    hide Concat;
    NothingToCut();
    if fs == [] {
    } else {
      FramesOfConcat(fs[1..]);
      FirstOf(fs);
      assert [fs[0]] + fs[1..] == fs;
    }
  }

  lemma {:induction false} KeepStaysFramed(fs: seq<Bytes>, lastKept: Byte)
    requires Framed(fs)
    ensures Framed(Keep(fs, lastKept))
  {
    if fs == [] {
    } else {
      KeepStaysFramed(fs[1..], if Dropped(TagOf(fs[0]), lastKept) then lastKept else TagOf(fs[0]));
      if !Dropped(TagOf(fs[0]), lastKept) {
        assert Keep(fs, lastKept)[1..] == Keep(fs[1..], TagOf(fs[0]));
      }
    }
  }

  /** A filtered response is left as it is, whatever lengths its frames claim. */
  lemma FilterIsIdempotent(response: Bytes)
    ensures Filtered(Filtered(response)) == Filtered(response)
  {
    var fs := Frames(response);
    FramesAreFramed(response);
    KeepStaysFramed(fs, 0);
    FramesOfConcat(Keep(fs, 0));
    KeepIsExact(fs, 0);
    KeptIsKept(Keep(fs, 0), 0);
  }

  // ---- Messages of the server ----

  /** A message on the wire: the tag, the length of the body and of itself in four bytes, and the
      body. */
  datatype ServerMsg = ServerMsg(tag: Byte, body: Bytes)

  function Encode(m: ServerMsg): Bytes { [m.tag] + Be(4, |m.body| + 4) + m.body }

  function Encodings(ms: seq<ServerMsg>): (fs: seq<Bytes>)
    ensures |fs| == |ms| && forall i | 0 <= i < |ms| :: fs[i] == Encode(ms[i])
  {
    if ms == [] then [] else [Encode(ms[0])] + Encodings(ms[1..])
  }

  /** Their bodies are short enough for the length to be four bytes. */
  predicate Encodable(ms: seq<ServerMsg>) { forall m | m in ms :: |m.body| + 4 < 0x1_0000_0000 }

  /** The message before this one, notifications apart, is a ready. */
  predicate AfterReady(ms: seq<ServerMsg>, i: nat)
    requires i <= |ms|
  {
    exists j :: 0 <= j < i && ms[j].tag == 'Z' as int && forall k | j < k < i :: ms[k].tag == 'A' as int
  }

  /** Neither a notification nor a ready after a ready. */
  predicate Passes(ms: seq<ServerMsg>, i: nat)
    requires i < |ms|
  {
    ms[i].tag != 'A' as int && !(ms[i].tag == 'Z' as int && AfterReady(ms, i))
  }

  /** The messages among the first `n` that pass. */
  function Passed(ms: seq<ServerMsg>, n: nat): seq<ServerMsg>
    requires n <= |ms|
  {
    if n == 0 then [] else Passed(ms, n - 1) + if Passes(ms, n - 1) then [ms[n - 1]] else []
  }

  /** An encoded message is a whole frame with the message's tag. */
  lemma EncodedIsWhole(m: ServerMsg)
    requires |m.body| + 4 < 0x1_0000_0000
    ensures Whole(Encode(m)) && TagOf(Encode(m)) == m.tag
  {
    Powers();
    FromBeBe(4, |m.body| + 4);
    assert Encode(m)[1..5] == Be(4, |m.body| + 4);
  }

  lemma {:induction false} EncodedAreFramed(ms: seq<ServerMsg>)
    requires Encodable(ms)
    ensures Framed(Encodings(ms))
  {
    hide Encode;
    if ms == [] {
    } else {
      EncodedIsWhole(ms[0]);
      EncodedAreFramed(ms[1..]);
      assert Encodings(ms)[1..] == Encodings(ms[1..]);
    }
  }

  lemma NextAfterReady(ms: seq<ServerMsg>, i: nat)
    requires i < |ms|
    ensures AfterReady(ms, i + 1) <==>
            ms[i].tag == 'Z' as int || (ms[i].tag == 'A' as int && AfterReady(ms, i))
  {
  }

  lemma EncodingsSnoc(ms: seq<ServerMsg>, m: ServerMsg)
    ensures Encodings(ms + [m]) == Encodings(ms) + [Encode(m)]
  {
  }

  /** The filter meets the i-th message: what passes so far takes it on, or not. */
  lemma KeepNext(ms: seq<ServerMsg>, i: nat, lastKept: Byte)
    requires Encodable(ms) && i < |ms| && (lastKept == 'Z' as int <==> AfterReady(ms, i))
    ensures var last := if Passes(ms, i) then ms[i].tag else lastKept;
            && (last == 'Z' as int <==> AfterReady(ms, i + 1))
            && Encodings(Passed(ms, i)) + Keep(Encodings(ms[i..]), lastKept) ==
               Encodings(Passed(ms, i + 1)) + Keep(Encodings(ms[i + 1..]), last)
  {
    hide Encode;
    hide AfterReady;
    hide Encodings;
    var f, rest := Encode(ms[i]), Encodings(ms[i + 1..]);
    EncodedIsWhole(ms[i]);
    NextAfterReady(ms, i);
    EncodingsSnoc(Passed(ms, i), ms[i]);
    assert Encodings(ms[i..]) == [f] + rest;
    assert ([f] + rest)[1..] == rest;
    if Passes(ms, i) {
      assert Encodings(Passed(ms, i)) + ([f] + Keep(rest, ms[i].tag)) ==
             Encodings(Passed(ms, i + 1)) + Keep(rest, ms[i].tag);
    }
  }

  /** After the first `i` messages the filter lets through the rest that pass. */
  lemma {:induction false} KeepEncoded(ms: seq<ServerMsg>, i: nat, lastKept: Byte)
    requires Encodable(ms) && i <= |ms| && (lastKept == 'Z' as int <==> AfterReady(ms, i))
    ensures Encodings(Passed(ms, i)) + Keep(Encodings(ms[i..]), lastKept) == Encodings(Passed(ms, |ms|))
    decreases |ms| - i
  {
    hide AfterReady;
    hide Passed;
    hide Encode;
    if i == |ms| {
      assert ms[i..] == [] && Encodings(ms[i..]) == [];
    } else {
      KeepNext(ms, i, lastKept);
      KeepEncoded(ms, i + 1, if Passes(ms, i) then ms[i].tag else lastKept);
    }
  }

  /** The frames of joined encodings are the encodings, and what the filter lets through are the
      encodings of the messages passed on. */
  lemma FilterOfMessages(ms: seq<ServerMsg>)
    requires Encodable(ms)
    ensures Frames(Concat(Encodings(ms))) == Encodings(ms)
    ensures Filtered(Concat(Encodings(ms))) == Concat(Encodings(Passed(ms, |ms|)))
  {
    hide Frames;
    hide Keep;
    hide Concat;
    EncodedAreFramed(ms);
    FramesOfConcat(Encodings(ms));
    KeepEncoded(ms, 0, 0);
    assert ms[0..] == ms && [] + Keep(Encodings(ms), 0) == Keep(Encodings(ms), 0);
  }

  method FilterResponse(response: Bytes) returns (out: Bytes)
    ensures out == Filtered(response)
    ensures forall ms | Encodable(ms) && response == Concat(Encodings(ms)) :: out == Concat(Encodings(Passed(ms, |ms|)))
  {
    hide Frames;
    hide Keep;
    hide Concat;
    out := [];
    var offset, lastKept: Byte := 0, 0;
    assert response[0..] == response;
    while offset + 5 <= |response|
      invariant offset <= |response|
      invariant Filtered(response) == out + Concat(Keep(Frames(response[offset..]), lastKept))
      decreases |response| - offset
    {
      ghost var s := response[offset..];
      FilterStep(s, lastKept);
      assert s[1..5] == response[offset + 1..offset + 5];
      var tag, len := response[offset], FromBe(response[offset + 1..offset + 5]);
      var end := offset + 1 + if len > 4 then len else 4;
      if end > |response| {
        end := |response|;
      }
      assert end == offset + FrameEnd(s);
      assert s[..FrameEnd(s)] == response[offset..end] && s[FrameEnd(s)..] == response[end..];
      if !(tag == TAG_NOTIFICATION || (tag == TAG_READY && lastKept == TAG_READY)) {
        Regroup(out, response[offset..end], Concat(Keep(Frames(response[end..]), tag)));
        out := out + response[offset..end];
        lastKept := tag;
      }
      offset := end;
    }
    NothingLeft(response[offset..], lastKept);
    assert out + [] == out;
    forall ms | Encodable(ms) && response == Concat(Encodings(ms))
      ensures out == Concat(Encodings(Passed(ms, |ms|)))
    {
      FilterOfMessages(ms);
    }
  }

  // ---- Gathering client frames ----

  datatype ClientFrame = ClientFrame(tag: Byte, rest: Bytes)

  function Wire(f: ClientFrame): Bytes { [f.tag] + f.rest }

  function WireOf(fs: seq<ClientFrame>): Bytes {
    if fs == [] then [] else WireOf(fs[..|fs| - 1]) + Wire(fs[|fs| - 1])
  }

  /** A run of frames that ends at its only asking frame. */
  predicate OneQuestion(fs: seq<ClientFrame>) {
    fs != [] && forall i | 0 <= i < |fs| :: Asks(fs[i].tag) <==> i == |fs| - 1
  }

  /** The frames are cut into runs with one question each, and a rest without question. */
  ghost predicate CutInto(fs: seq<ClientFrame>, runs: seq<seq<ClientFrame>>, rest: seq<ClientFrame>) {
    && fs == Flat(runs) + rest && (forall r | r in runs :: OneQuestion(r))
    && forall f | f in rest :: !Asks(f.tag)
  }

  function Flat(runs: seq<seq<ClientFrame>>): seq<ClientFrame> {
    if runs == [] then [] else Flat(runs[..|runs| - 1]) + runs[|runs| - 1]
  }

  function Wires(runs: seq<seq<ClientFrame>>): (ws: seq<Bytes>)
    ensures |ws| == |runs|
  {
    seq(|runs|, i requires 0 <= i < |runs| => WireOf(runs[i]))
  }

  lemma AskingTags(tag: Byte)
    ensures Asks(tag) <==> tag as char in "QFScf"
  {
    assert "QFScf" == ['Q', 'F', 'S', 'c', 'f'];
  }

  lemma NoFrames()
    ensures Flat([]) == [] && WireOf([]) == []
  {
  }

  lemma OneMoreFrame(fs: seq<ClientFrame>, runs: seq<seq<ClientFrame>>, rest: seq<ClientFrame>, f: ClientFrame)
    requires CutInto(fs, runs, rest)
    ensures WireOf(rest + [f]) == WireOf(rest) + Wire(f)
    ensures if Asks(f.tag) then CutInto(fs + [f], runs + [rest + [f]], []) else CutInto(fs + [f], runs, rest + [f])
  {
    var run := rest + [f];
    assert run[..|rest|] == rest && fs + [f] == Flat(runs) + run;
    if Asks(f.tag) {
      assert (runs + [run])[..|runs|] == runs;
      assert Flat(runs + [run]) + [] == Flat(runs) + run;
      assert forall i | 0 <= i < |rest| :: rest[i] in rest;
    }
  }

  /** The frames read from one client, up to its Terminate: each batch sent to the server is
      the bytes of one run. */
  method ServeClient(frames: seq<ClientFrame>)
    returns (batches: seq<Bytes>, pending: Bytes, seen: nat,
             ghost runs: seq<seq<ClientFrame>>, ghost rest: seq<ClientFrame>)
    ensures seen <= |frames| && (seen < |frames| ==> frames[seen].tag == 'X' as int)
    ensures forall i | 0 <= i < seen :: frames[i].tag != 'X' as int
    ensures CutInto(frames[..seen], runs, rest) && batches == Wires(runs) && pending == WireOf(rest)
  {
    hide Flat;
    hide WireOf;
    batches, pending, seen, runs, rest := [], [], 0, [], [];
    NoFrames();
    while seen < |frames|
      invariant seen <= |frames| && forall i | 0 <= i < seen :: frames[i].tag != TAG_TERMINATE
      invariant CutInto(frames[..seen], runs, rest) && batches == Wires(runs) && pending == WireOf(rest)
    {
      var f := frames[seen];
      if f.tag == TAG_TERMINATE {
        return;
      }
      assert frames[..seen + 1] == frames[..seen] + [f];
      OneMoreFrame(frames[..seen], runs, rest, f);
      pending, rest, seen := pending + ([f.tag] + f.rest), rest + [f], seen + 1;
      if Asks(f.tag) {
        batches, runs, rest, pending := batches + [pending], runs + [rest], [], [];
        assert WireOf([]) == [] by { NoFrames(); }
      }
    }
  }
}
