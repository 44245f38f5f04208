/** What becomes of statements sent to the local server, and of a transaction of them. */
module Fates {
  import opened Wrappers

  /** One statement by itself: done, refused, or done with its reply lost. */
  datatype Fate = Runs | Rejected(error: Error) | ReplyLost(error: Error)

  function FateResult(f: Fate): Outcome {
    match f
    case Runs => Pass
    case Rejected(e) => Fail(e)
    case ReplyLost(e) => Fail(e)
  }

  /** The reply to one command of a transaction. With the connection broken the session is
      gone, and the command may have taken effect or not. */
  datatype Reply = Done | Refused(error: Error) | Broken(error: Error, effect: bool)

  function ReplyResult(r: Reply): Outcome {
    match r
    case Done => Pass
    case Refused(e) => Fail(e)
    case Broken(e, _) => Fail(e)
  }

  /** Replies not listed are Done. */
  function ReplyAt(replies: seq<Reply>, k: nat): Reply { if k < |replies| then replies[k] else Done }

  predicate AllDone(replies: seq<Reply>, n: nat) { forall k | 0 <= k < n :: ReplyAt(replies, k).Done? }

  /** A transaction of `n` commands and a COMMIT, whose client stops at the first reply that is
      not Done: only a COMMIT that took effect makes a difference. */
  function FateOf(n: nat, replies: seq<Reply>): Fate { FateFrom(0, n, replies) }

  function FateFrom(k: nat, n: nat, replies: seq<Reply>): Fate
    requires k <= n
    decreases n - k
  {
    var r := ReplyAt(replies, k);
    if k == n then
      match r
      case Done => Runs
      case Refused(e) => Rejected(e)
      case Broken(e, effect) => if effect then ReplyLost(e) else Rejected(e)
    else if r.Done? then FateFrom(k + 1, n, replies)
    else Rejected(ReplyResult(r).error)
  }

  /** The first command not Done decides. */
  lemma {:induction false} FateAt(j: nat, k: nat, n: nat, replies: seq<Reply>)
    requires j <= k <= n && AllDone(replies, k)
    ensures FateFrom(j, n, replies) == FateFrom(k, n, replies)
    decreases k - j
  {
    if j == k {
    } else {
      FateAt(j + 1, k, n, replies);
    }
  }

  /** A transaction takes effect exactly when every command before COMMIT was Done and COMMIT
      took effect. */
  lemma {:induction false} EffectIffCommitted(k: nat, n: nat, replies: seq<Reply>)
    requires k <= n && AllDone(replies, k)
    ensures !FateFrom(k, n, replies).Rejected? <==>
            AllDone(replies, n) &&
            (ReplyAt(replies, n).Done? || (ReplyAt(replies, n).Broken? && ReplyAt(replies, n).effect))
    ensures FateFrom(k, n, replies).Runs? <==> AllDone(replies, n + 1)
    decreases n - k
  {
    if k == n {
    } else if ReplyAt(replies, k).Done? {
      EffectIffCommitted(k + 1, n, replies);
    }
  }

  /** A command that fails before COMMIT fails the transaction. */
  lemma FailsBefore(k: nat, n: nat, replies: seq<Reply>)
    requires k < n && AllDone(replies, k) && !ReplyAt(replies, k).Done?
    ensures FateOf(n, replies) == Rejected(ReplyResult(ReplyAt(replies, k)).error)
  {
    FateAt(0, k, n, replies);
  }

  lemma CommitDecides(n: nat, replies: seq<Reply>)
    requires AllDone(replies, n)
    ensures FateOf(n, replies) == FateFrom(n, n, replies)
  {
    FateAt(0, n, n, replies);
  }
}
