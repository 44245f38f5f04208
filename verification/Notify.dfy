/** The notification connection (`crates/pglite/src/multiple_process/notify.rs`): callers of
    `command` and the reader thread share a queue of callers waiting for a reply. */
module Notify {
  import opened Wrappers

  /** What the reader makes of one frame. */
  datatype Frame = ErrorResponse(error: Error) | ReadyForQuery | Ignored

  /** The interleaved actions on one connection. A command first queues itself and then
      writes, holding the writer lock for both. */
  datatype Action =
    | Queued(id: nat)
    | Wrote(id: nat)
    | WriteFailed(id: nat)
    | Got(frame: Frame)
    | Ended

  type Reply = Option<Error>

  /** `failed` are the commands that returned the error of their own write. Their senders stay in
      the queue, and what is sent to them is lost. */
  datatype State = State(pending: seq<nat>, staged: Option<Error>, done: seq<(nat, Reply)>, failed: seq<nat>)

  function Closing(pending: seq<nat>): (cs: seq<(nat, Reply)>)
    ensures |cs| == |pending| && forall i | 0 <= i < |cs| :: cs[i] == (pending[i], Some(Closed))
  {
    if pending == [] then [] else [(pending[0], Some(Closed))] + Closing(pending[1..])
  }

  function Next(s: State, a: Action): State {
    match a
    case Queued(id) => s.(pending := s.pending + [id])
    case Got(ErrorResponse(e)) => s.(staged := Some(e))
    case Got(ReadyForQuery) =>
      if s.pending == [] then s
      else s.(pending := s.pending[1..], staged := None, done := s.done + [(s.pending[0], s.staged)])
    case WriteFailed(id) => s.(failed := s.failed + [id])
    case Ended => s.(pending := [], done := s.done + Closing(s.pending))
    case _ => s
  }

  function After(t: seq<Action>): State {
    if t == [] then State([], None, [], []) else Next(After(t[..|t| - 1]), t[|t| - 1])
  }

  lemma CloseFirst(done: seq<(nat, Reply)>, pending: seq<nat>)
    requires pending != []
    ensures done + Closing(pending) == done + [(pending[0], Some(Closed))] + Closing(pending[1..])
  {
  }

  lemma CloseNone(done: seq<(nat, Reply)>)
    ensures done + Closing([]) == done
  {
  }

  // ---- The connection ----

  class NotifyConn {
    var pending: seq<nat>
    var staged: Option<Error>
    var done: seq<(nat, Reply)>
    var failed: seq<nat>

    function Now(): State
      reads this
    {
      State(pending, staged, done, failed)
    }

    constructor ()
      ensures Now() == After([])
    {
      pending, staged, done, failed := [], None, [], [];
    }

    method Enqueue(id: nat)
      modifies this
      ensures Now() == Next(old(Now()), Queued(id))
    {
      pending := pending + [id];
    }

    /** The write of a queued command fails: it returns that error. */
    method FailWrite(id: nat)
      modifies this
      ensures Now() == Next(old(Now()), WriteFailed(id))
    {
      failed := failed + [id];
    }

    method OnFrame(f: Frame)
      modifies this
      ensures Now() == Next(old(Now()), Got(f))
    {
      match f {
        case ErrorResponse(e) => staged := Some(e);
        case ReadyForQuery =>
          if pending != [] {
            done := done + [(pending[0], staged)];
            pending, staged := pending[1..], None;
          }
        case Ignored =>
      }
    }

    method OnEnd()
      modifies this
      ensures Now() == Next(old(Now()), Ended)
    {
      hide Closing;
      ghost var all := done + Closing(pending);
      while pending != []
        invariant staged == old(staged) && failed == old(failed)
        invariant done + Closing(pending) == all
        decreases |pending|
      {
        CloseFirst(done, pending);
        done := done + [(pending[0], Some(Closed))];
        pending := pending[1..];
      }
      CloseNone(done);
    }

    /** Callers and reader in the given interleaving. */
    method Interleaved(t: seq<Action>)
      requires Now() == After([])
      modifies this
      ensures Now() == After(t)
    {
      for i := 0 to |t|
        invariant Now() == After(t[..i])
      {
        assert t[..i + 1][..i] == t[..i];
        match t[i] {
          case Queued(id) => Enqueue(id);
          case Wrote(_) =>
          case WriteFailed(id) => FailWrite(id);
          case Got(f) => OnFrame(f);
          case Ended => OnEnd();
        }
      }
      assert t[..|t|] == t;
    }
  }

  // ---- What the connection is for ----

  function QueuedIds(t: seq<Action>): seq<nat> {
    if t == [] then []
    else QueuedIds(t[..|t| - 1]) + if t[|t| - 1].Queued? then [t[|t| - 1].id] else []
  }

  function WrittenIds(t: seq<Action>): seq<nat> {
    if t == [] then []
    else WrittenIds(t[..|t| - 1]) + if t[|t| - 1].Wrote? then [t[|t| - 1].id] else []
  }

  function FailedIds(t: seq<Action>): seq<nat> {
    if t == [] then []
    else FailedIds(t[..|t| - 1]) + if t[|t| - 1].WriteFailed? then [t[|t| - 1].id] else []
  }

  /** The last error since the last ready. */
  function ErrorSince(t: seq<Action>): Option<Error> {
    if t == [] then None
    else
      match t[|t| - 1]
      case Got(ReadyForQuery) => None
      case Got(ErrorResponse(e)) => Some(e)
      case _ => ErrorSince(t[..|t| - 1])
  }

  /** For each ready, the last error since the ready before. */
  function Replies(t: seq<Action>): seq<Reply> {
    if t == [] then []
    else
      var before := t[..|t| - 1];
      Replies(before) + if t[|t| - 1] == Got(ReadyForQuery) then [ErrorSince(before)] else []
  }

  function Holder(t: seq<Action>): Option<nat> {
    if t == [] then None
    else
      match t[|t| - 1]
      case Queued(id) => Some(id)
      case Wrote(_) => None
      case WriteFailed(_) => None
      case _ => Holder(t[..|t| - 1])
  }

  predicate Broken(t: seq<Action>) { exists i :: 0 <= i < |t| && t[i].WriteFailed? }

  predicate HasEnded(t: seq<Action>) { exists i :: 0 <= i < |t| && t[i].Ended? }

  /** One command at a time holds the writer; the server answers written commands only, each
      with one ready; a write that failed is the last. The reader leaves once; commands may
      still be queued and written then. */
  predicate Allowed(before: seq<Action>, a: Action) {
    match a
    case Queued(_) => Holder(before).None?
    case Wrote(id) => Holder(before) == Some(id) && !Broken(before)
    case WriteFailed(id) => Holder(before) == Some(id)
    case Got(ReadyForQuery) => !HasEnded(before) && |Replies(before)| < |WrittenIds(before)|
    case _ => !HasEnded(before)
  }

  predicate Valid(t: seq<Action>) { t == [] || (Valid(t[..|t| - 1]) && Allowed(t[..|t| - 1], t[|t| - 1])) }

  /** Commands are written in the order they were queued. */
  lemma {:induction false} WrittenInOrder(t: seq<Action>)
    requires Valid(t)
    ensures WrittenIds(t) <= QueuedIds(t)
    ensures !Broken(t) ==>
      QueuedIds(t) == WrittenIds(t) + if Holder(t).Some? then [Holder(t).value] else []
  {
    if t == [] {
    } else {
      var before := t[..|t| - 1];
      WrittenInOrder(before);
      assert t == before + [t[|t| - 1]];
      assert Broken(before) || t[|t| - 1].WriteFailed? <==> Broken(t);
    }
  }

  function Paired(ids: seq<nat>, replies: seq<Reply>): seq<(nat, Reply)>
    requires |ids| == |replies|
  {
    seq(|ids|, i requires 0 <= i < |ids| => (ids[i], replies[i]))
  }

  /** While the stream lasts: the first commands written have their replies, the rest wait. */
  ghost predicate Matched(t: seq<Action>, s: State) {
    var n := |Replies(t)|;
    && n <= |WrittenIds(t)| <= |QueuedIds(t)| && s.staged == ErrorSince(t)
    && s.pending == QueuedIds(t)[n..] && s.done == Paired(QueuedIds(t)[..n], Replies(t))
  }

  lemma OneMoreAction(t: seq<Action>, a: Action)
    ensures QueuedIds(t + [a]) == if a.Queued? then QueuedIds(t) + [a.id] else QueuedIds(t)
    ensures WrittenIds(t + [a]) == if a.Wrote? then WrittenIds(t) + [a.id] else WrittenIds(t)
    ensures Replies(t + [a]) == if a == Got(ReadyForQuery) then Replies(t) + [ErrorSince(t)] else Replies(t)
    ensures ErrorSince(t + [a]) ==
            match a
            case Got(ReadyForQuery) => None
            case Got(ErrorResponse(e)) => Some(e)
            case _ => ErrorSince(t)
  {
    assert (t + [a])[..|t|] == t;
  }

  lemma PairedMore(ids: seq<nat>, n: nat, replies: seq<Reply>, r: Reply)
    requires n == |replies| < |ids|
    ensures Paired(ids[..n + 1], replies + [r]) == Paired(ids[..n], replies) + [(ids[n], r)]
    ensures ids[n..] != [] && ids[n..][0] == ids[n] && ids[n..][1..] == ids[n + 1..]
  {
  }

  lemma QueuedMore(ids: seq<nat>, n: nat, id: nat)
    requires n <= |ids|
    ensures (ids + [id])[n..] == ids[n..] + [id] && (ids + [id])[..n] == ids[..n] && ids + [] == ids
  {
  }

  lemma MatchedNext(t: seq<Action>, a: Action, s: State)
    requires Matched(t, s) && Allowed(t, a) && !a.Ended? && WrittenIds(t + [a]) <= QueuedIds(t + [a])
    ensures Matched(t + [a], Next(s, a))
  {
    hide QueuedIds;
    hide WrittenIds;
    hide Replies;
    hide ErrorSince;
    hide Paired;
    var ids, n := QueuedIds(t), |Replies(t)|;
    OneMoreAction(t, a);
    QueuedMore(ids, n, 0);
    match a {
      case Queued(id) => QueuedMore(ids, n, id);
      case Got(ReadyForQuery) => PairedMore(ids, n, Replies(t), ErrorSince(t));
      case _ =>
    }
  }

  lemma {:induction false} RepliesMatch(t: seq<Action>)
    requires Valid(t) && !HasEnded(t)
    ensures Matched(t, After(t))
  {
    if t == [] {
    } else {
      var before := t[..|t| - 1];
      assert t == before + [t[|t| - 1]];
      assert forall i | 0 <= i < |before| :: before[i] == t[i];
      RepliesMatch(before);
      WrittenInOrder(t);
      MatchedNext(before, t[|t| - 1], After(before));
    }
  }

  /** In every interleaving: the k-th written command gets exactly one reply, on the k-th
      ready, and it is the last error since the ready before. */
  lemma KthCommandKthReply(t: seq<Action>, k: nat)
    requires Valid(t) && !HasEnded(t) && k < |Replies(t)|
    ensures k < |WrittenIds(t)| && |After(t).done| == |Replies(t)|
    ensures After(t).done[k] == (WrittenIds(t)[k], Replies(t)[k])
  {
    RepliesMatch(t);
    WrittenInOrder(t);
  }

  lemma {:induction false} ValidFront(t: seq<Action>, late: seq<Action>)
    requires Valid(t + late)
    ensures Valid(t)
    decreases |late|
  {
    if late == [] {
      assert t + late == t;
    } else {
      assert (t + late)[..|t + late| - 1] == t + late[..|late| - 1];
      ValidFront(t, late[..|late| - 1]);
    }
  }

  /** After the reader has left, nothing is answered. */
  lemma {:induction false} LateOnesWait(t: seq<Action>, late: seq<Action>)
    requires Valid(t + [Ended] + late)
    ensures After(t + [Ended] + late) ==
            var end := After(t + [Ended]);
            end.(pending := end.pending + QueuedIds(late), failed := end.failed + FailedIds(late))
    decreases |late|
  {
    var all := t + [Ended] + late;
    if late == [] {
      assert all == t + [Ended];
    } else {
      var n := |late| - 1;
      var before := t + [Ended] + late[..n];
      assert all[..|all| - 1] == before && all[|all| - 1] == late[n];
      assert before[|t|] == Ended;
      LateOnesWait(t, late[..n]);
      assert Allowed(before, late[n]);
    }
  }

  lemma {:induction false} FailedAreKept(t: seq<Action>)
    ensures After(t).failed == FailedIds(t)
  {
    if t == [] {
    } else {
      FailedAreKept(t[..|t| - 1]);
    }
  }

  /** When the reader leaves, every sender queued before has one reply: its own, or `Closed` when
      none had come. The senders queued later get none. */
  lemma EveryCommandEnds(t: seq<Action>, late: seq<Action>)
    requires Valid(t + [Ended] + late)
    ensures var ids, s, n := QueuedIds(t), After(t + [Ended] + late), |Replies(t)|;
            && |s.done| == |ids| && n <= |ids| && s.pending == QueuedIds(late)
            && s.failed == FailedIds(t) + FailedIds(late)
            && forall k | 0 <= k < |ids| :: s.done[k] == (ids[k], if k < n then Replies(t)[k] else Some(Closed))
  {
    ValidFront(t + [Ended], late);
    assert (t + [Ended])[..|t|] == t;
    RepliesMatch(t);
    FailedAreKept(t);
    LateOnesWait(t, late);
  }

  /** The command returned: its sender was completed, or its write failed. */
  ghost predicate HasOutcome(s: State, id: nat) {
    id in s.failed || exists k | 0 <= k < |s.done| :: s.done[k].0 == id
  }

  lemma {:induction false} IdsJoin(a: seq<Action>, b: seq<Action>)
    ensures QueuedIds(a + b) == QueuedIds(a) + QueuedIds(b) && FailedIds(a + b) == FailedIds(a) + FailedIds(b)
    decreases |b|
  {
    if b == [] {
      assert a + b == a;
    } else {
      assert (a + b)[..|a + b| - 1] == a + b[..|b| - 1];
      IdsJoin(a, b[..|b| - 1]);
    }
  }

  predicate Distinct(ids: seq<nat>) { forall i, j | 0 <= i < j < |ids| :: ids[i] != ids[j] }

  lemma DistinctFront(ids: seq<nat>, id: nat)
    requires Distinct(ids + [id])
    ensures Distinct(ids) && id !in ids
  {
    var all := ids + [id];
    assert forall i | 0 <= i < |ids| :: all[i] == ids[i];
    assert all[|ids|] == id;
  }

  /** A command that was queued was written, failed to be written, or holds the writer, and only
      one of these. */
  lemma {:induction false} OneCourse(t: seq<Action>, id: nat)
    requires Valid(t) && Distinct(QueuedIds(t))
    ensures id in QueuedIds(t) <==> id in WrittenIds(t) || id in FailedIds(t) || Holder(t) == Some(id)
    ensures !(id in WrittenIds(t) && id in FailedIds(t))
    ensures Holder(t) == Some(id) ==> id !in WrittenIds(t) && id !in FailedIds(t)
  {
    if t == [] {
    } else {
      var n := |t| - 1;
      assert QueuedIds(t[..n]) + [] == QueuedIds(t[..n]);
      if t[n].Queued? {
        DistinctFront(QueuedIds(t[..n]), t[n].id);
        OneCourse(t[..n], t[n].id);
      }
      OneCourse(t[..n], id);
    }
  }

  lemma EndedNames()
    ensures QueuedIds([Ended]) == [] && FailedIds([Ended]) == []
    ensures forall ids: seq<nat> :: ids + [] == ids
  {
    assert [Ended][..0] == [];
  }

  lemma DoneNames(ids: seq<nat>, s: State, id: nat)
    requires |s.done| == |ids| && forall k | 0 <= k < |ids| :: s.done[k].0 == ids[k]
    ensures (exists k | 0 <= k < |s.done| :: s.done[k].0 == id) <==> id in ids
  {
    if id in ids {
      var k :| 0 <= k < |ids| && ids[k] == id;
      assert s.done[k].0 == id;
    }
  }

  lemma Apart(a: seq<nat>, b: seq<nat>, id: nat)
    requires Distinct(a + b) && id in a
    ensures id !in b
  {
    var i :| 0 <= i < |a| && a[i] == id;
    forall j | 0 <= j < |b|
      ensures b[j] != id
    {
      assert (a + b)[i] != (a + b)[|a| + j];
    }
  }

  /** With every call under its own name: a call waits without end exactly when it was queued
      after the reader had left and its write did not fail. */
  lemma NoOutcomeIff(t: seq<Action>, late: seq<Action>, id: nat)
    requires Valid(t + [Ended] + late) && Distinct(QueuedIds(t + [Ended] + late))
    requires id in QueuedIds(t + [Ended] + late)
    ensures var all := t + [Ended] + late;
            !HasOutcome(After(all), id) <==>
            id in QueuedIds(late) && (id in WrittenIds(all) || Holder(all) == Some(id))
  {
    hide Valid;
    hide After;
    var all := t + [Ended] + late;
    var s := After(all);
    EveryCommandEnds(t, late);
    IdsJoin(t + [Ended], late);
    IdsJoin(t, [Ended]);
    assert QueuedIds(t + [Ended]) == QueuedIds(t) && FailedIds(t + [Ended]) == FailedIds(t) by {
      EndedNames();
    }
    OneCourse(all, id);
    DoneNames(QueuedIds(t), s, id);
    if id in QueuedIds(t) {
      Apart(QueuedIds(t), QueuedIds(late), id);
    }
  }

  /** Without the rule that a failed write ends the stream, a command whose write failed
      takes the reply of the next one. */
  lemma FailedWriteShifts(a: nat, b: nat)
    ensures After([Queued(a), WriteFailed(a), Queued(b), Wrote(b), Got(ReadyForQuery)]).done == [(a, None)]
  {
    var t := [Queued(a), WriteFailed(a), Queued(b), Wrote(b), Got(ReadyForQuery)];
    assert t[..4][..3] == t[..3] && t[..3][..2] == t[..2] && t[..2][..1] == t[..1] && t[..1][..0] == [];
    assert After(t[..1]) == State([a], None, [], []);
    assert After(t[..2]) == State([a], None, [], [a]);
    assert After(t[..3]) == State([a, b], None, [], [a]);
    assert After(t[..4]) == State([a, b], None, [], [a]);
  }
}
